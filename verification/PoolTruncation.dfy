/** Cutting the pending lists down to the pool's limit.  The pool drops one transaction at a time from
    its largest senders; what it ends up with is a single level to which every non-local list is cut.
 */
module PoolTruncation {
  import opened Transactions
  import opened TxSortedMapModel
  import opened TxListModel
  import opened PoolState
  import opened PoolSteps

  /** The number of transactions in all lists. */
  ghost function Total(lists: Lists): nat
    decreases lists.Keys
  {
    if lists == map[] then 0 else var a :| a in lists; |lists[a]| + Total(lists - {a})
  }

  lemma {:induction false} TotalTake(lists: Lists, a: Address)
    requires a in lists
    ensures Total(lists) == |lists[a]| + Total(lists - {a})
    decreases lists.Keys
  {
    var b :| b in lists && Total(lists) == |lists[b]| + Total(lists - {b});
    if b != a {
      TotalTake(lists - {b}, a);
      TotalTake(lists - {a}, b);
      assert lists - {b} - {a} == lists - {a} - {b};
    }
  }

  lemma TotalWithout(lists: Lists, a: Address)
    ensures Total(lists) == |Of(lists, a)| + Total(lists - {a})
  {
    if a in lists {
      TotalTake(lists, a);
    } else {
      assert lists - {a} == lists;
    }
  }

  lemma TotalSet(lists: Lists, a: Address, m: Txs)
    ensures Total(SetOf(lists, a, m)) == Total(lists) - |Of(lists, a)| + |m|
  {
    var lists' := SetOf(lists, a, m);
    TotalWithout(lists, a);
    TotalWithout(lists', a);
    OfSet(lists, a, m, a);
    SetElsewhere(lists, a, m);
  }

  lemma SetElsewhere(lists: Lists, a: Address, m: Txs)
    ensures SetOf(lists, a, m) - {a} == lists - {a}
  {
  }

  /** Every list not of a local account cut to its lowest `e` nonces. */
  ghost function Level(lists: Lists, locals: set<Address>, e: nat): Lists {
    map a | a in lists :: if a in locals then lists[a] else CapTo(lists[a], e)
  }

  /** Half way from level `e + 1` to level `e`: the first `i` offenders have been cut. */
  ghost function Between(lists: Lists, locals: set<Address>, e: nat, offenders: seq<Address>, i: nat): Lists
    requires i <= |offenders|
  {
    map a | a in lists :: if a in locals then lists[a] else CapTo(lists[a], Height(offenders, i, e, a))
  }

  ghost function Height(offenders: seq<Address>, i: nat, e: nat, a: Address): nat
    requires i <= |offenders|
  {
    if a in offenders[..i] then e else e + 1
  }

  lemma HeightStep(offenders: seq<Address>, i: nat, e: nat, a: Address)
    requires i < |offenders| && forall k, j | 0 <= k < j < |offenders| :: offenders[k] != offenders[j]
    ensures Height(offenders, i + 1, e, a) == if a == offenders[i] then e else Height(offenders, i, e, a)
    ensures Height(offenders, i, e, offenders[i]) == e + 1
  {
    assert offenders[..i + 1] == offenders[..i] + [offenders[i]];
  }

  /** The offenders are distinct non-local senders of at least `least` transactions; all other non-local
      senders have at most `rest`. */
  ghost predicate Offending(lists: Lists, locals: set<Address>, offenders: seq<Address>, least: nat, rest: nat) {
    && (forall i, j | 0 <= i < j < |offenders| :: offenders[i] != offenders[j])
    && (forall o <- offenders :: o in lists && o !in locals && least <= |lists[o]|)
    && (forall a <- lists :: a in locals || a in offenders || |lists[a]| <= rest)
  }

  /** No higher level fits, unless nothing was cut. */
  ghost predicate Tight(lists: Lists, locals: set<Address>, e: nat, limit: nat) {
    Level(lists, locals, e) == lists || Total(Level(lists, locals, e + 1)) > limit
  }

  /** The state of the search for offenders: `spammers` have not been looked at and still have whole lists. */
  ghost predicate Ranked(lists: Lists, locals: set<Address>, offenders: seq<Address>, spammers: set<Address>,
                         level: nat, allowance: nat, above: bool)
  {
    && (forall i, j | 0 <= i < j < |offenders| :: offenders[i] != offenders[j])
    && (forall a <- lists :: a in locals || a in offenders || a in spammers || |lists[a]| <= allowance)
    && (forall a <- spammers :: a in lists && a !in locals && a !in offenders && allowance < |lists[a]| <= level)
    && (forall o <- offenders :: o in lists && o !in locals && (above ==> level <= |lists[o]|))
  }

  lemma SpammersWhole(lists: Lists, locals: set<Address>, offenders: seq<Address>, spammers: set<Address>, level: nat,
                      allowance: nat)
    requires Ranked(lists, locals, offenders, spammers, level, allowance, true)
    ensures forall a <- spammers :: a in Level(lists, locals, level) && Level(lists, locals, level)[a] == lists[a]
  {
    forall a | a in spammers ensures CapTo(lists[a], level) == lists[a] {
      CapWhole(lists[a], level);
    }
  }

  /** The longest spammer sets the threshold; if it is the first, nothing has been cut yet. */
  lemma NextOffender(lists: Lists, locals: set<Address>, offenders: seq<Address>, spammers: set<Address>,
                     level: nat, allowance: nat, x: Address, threshold: nat)
    requires Ranked(lists, locals, offenders, spammers, level, allowance, true)
    requires x in spammers && threshold == |lists[x]|
    requires forall b <- spammers :: |lists[b]| <= |lists[x]|
    ensures allowance < threshold <= level
    ensures Offending(lists, locals, offenders, level, threshold)
    ensures offenders == [] ==> Level(lists, locals, threshold) == lists
  {
    if offenders == [] {
      LevelAbove(lists, locals, threshold);
    }
  }

  /** It then joins the offenders. */
  lemma NowOffender(lists: Lists, locals: set<Address>, offenders: seq<Address>, spammers: set<Address>,
                    level: nat, allowance: nat, x: Address, e: nat, above: bool)
    requires Ranked(lists, locals, offenders, spammers, level, allowance, true) && x in spammers
    requires forall b <- spammers :: |lists[b]| <= |lists[x]|
    requires |lists[x]| <= e <= level && (above ==> e == |lists[x]|)
    ensures Ranked(lists, locals, offenders + [x], spammers - {x}, e, allowance, above)
  {
  }

  lemma LastLength(lists: Lists, locals: set<Address>, offenders: seq<Address>, e0: nat, threshold: nat, e: nat)
    requires offenders != [] && Offending(lists, locals, offenders, e0, threshold) && e <= e0
    ensures var last := offenders[|offenders| - 1];
            last in Level(lists, locals, e) && |Level(lists, locals, e)[last]| == e
  {
    var last := offenders[|offenders| - 1];
    assert last in offenders;
    CapToIsCapped(lists[last], e);
  }

  /** A round that starts above the limit goes down one level. */
  lemma RoundFacts(lists: Lists, locals: set<Address>, offenders: seq<Address>, e0: nat, threshold: nat, high: nat,
                   e: nat, limit: nat)
    requires offenders != [] && Offending(lists, locals, offenders, e0, threshold)
    requires threshold <= e < e0 && high == e + 1
    ensures Offending(lists, locals, offenders, e + 1, e)
    ensures Between(lists, locals, e, offenders, 0) == Level(lists, locals, high)
    ensures Between(lists, locals, e, offenders, |offenders|) == Level(lists, locals, e)
    ensures Total(Level(lists, locals, e)) == Total(Level(lists, locals, high)) - |offenders|
    ensures Total(Level(lists, locals, high)) > limit ==> Tight(lists, locals, e, limit)
    ensures var last := offenders[|offenders| - 1];
            last in Level(lists, locals, e) && |Level(lists, locals, e)[last]| == e
  {
    BetweenStarts(lists, locals, e, offenders);
    BetweenEnds(lists, locals, e, offenders);
    RoundTotal(lists, locals, e, offenders, |offenders|);
    LastLength(lists, locals, offenders, e0, threshold, e);
  }

  /** A level above everything. */
  lemma NoLevel(lists: Lists, locals: set<Address>, allowance: nat) returns (level: nat)
    ensures allowance <= level && Level(lists, locals, level) == lists && forall a <- lists :: |lists[a]| <= level
  {
    level := Total(lists) + allowance;
    forall a | a in lists ensures |lists[a]| <= level {
      TotalTake(lists, a);
    }
    LevelAbove(lists, locals, level);
  }

  /** A level no list exceeds changes nothing. */
  lemma LevelAbove(lists: Lists, locals: set<Address>, e: nat)
    requires forall a <- lists :: a in locals || |lists[a]| <= e
    ensures Level(lists, locals, e) == lists
  {
    forall a | a in lists && a !in locals ensures CapTo(lists[a], e) == lists[a] {
      CapWhole(lists[a], e);
    }
  }

  lemma BetweenStarts(lists: Lists, locals: set<Address>, e: nat, offenders: seq<Address>)
    ensures Between(lists, locals, e, offenders, 0) == Level(lists, locals, e + 1)
  {
  }

  lemma BetweenStep(lists: Lists, locals: set<Address>, e: nat, offenders: seq<Address>, i: nat, next: nat)
    requires next == i + 1 <= |offenders| && Offending(lists, locals, offenders, e + 1, e)
    ensures var half, a := Between(lists, locals, e, offenders, i), offenders[i];
            && a in half && |half[a]| == e + 1 && half[a] != map[]
            && Between(lists, locals, e, offenders, next) == half[a := half[a] - {Highest(half[a])}]
  {
    var a := offenders[i];
    assert a in offenders;
    CapStep(lists[a], e);
    HeightStep(offenders, i, e, a);
    var half, after := Between(lists, locals, e, offenders, i), Between(lists, locals, e, offenders, next);
    assert half[a] == CapTo(lists[a], e + 1) && after[a] == CapTo(lists[a], e);
    forall b | b in lists && b != a ensures after[b] == half[b] {
      HeightStep(offenders, i, e, b);
    }
  }

  lemma BetweenEnds(lists: Lists, locals: set<Address>, e: nat, offenders: seq<Address>)
    requires Offending(lists, locals, offenders, e + 1, e)
    ensures Between(lists, locals, e, offenders, |offenders|) == Level(lists, locals, e)
  {
    assert offenders[..|offenders|] == offenders;
    forall a | a in lists && a !in locals && a !in offenders ensures CapTo(lists[a], e + 1) == CapTo(lists[a], e) {
      CapWhole(lists[a], e);
      CapWhole(lists[a], e + 1);
    }
  }

  lemma {:induction false} LongestExists(lists: Lists, s: set<Address>)
    requires s != {} && forall a <- s :: a in lists
    ensures exists x :: x in s && forall b <- s :: |lists[b]| <= |lists[x]|
    decreases s
  {
    var y :| y in s;
    if s == {y} {
      assert forall b <- s :: b == y;
    } else {
      LongestExists(lists, s - {y});
      var x :| x in s - {y} && forall b <- s - {y} :: |lists[b]| <= |lists[x]|;
      var z := if |lists[x]| < |lists[y]| then y else x;
      assert forall b <- s :: b == y || b in s - {y};
      assert z in s && forall b <- s :: |lists[b]| <= |lists[z]|;
    }
  }

  // ---------- one dropped transaction ----------

  /** The pool after the highest pending transaction of an account is dropped. */
  ghost function AfterDrop(p: Pool, a: Address): Pool
    requires a in p.pending && p.pending[a] != map[]
  {
    var pend := p.pending[a];
    Shrunk(p, a, pend - {Highest(pend)}, Of(p.queue, a), {pend[Highest(pend)]})
  }

  lemma DropKeepsConsistent(p: Pool, a: Address)
    requires Consistent(p) && a in p.pending && p.pending[a] != map[]
    ensures Consistent(AfterDrop(p, a))
  {
    var pend, que := p.pending[a], Of(p.queue, a);
    var h := Highest(pend);
    assert AccountOk(a, Of(p.pending, a), que);
    assert Redistributes(p, a, pend - {h}, que, {pend[h]});
    ShrinkingKeepsConsistent(p, a, pend - {h}, que, {pend[h]});
  }

  /** Every account is lined up with the chain. */
  ghost predicate AllLined(p: Pool, nonces: map<Address, nat>, env: Env) {
    forall a :: LinedUp(env.nonce(a), ViewOf(p, nonces, env, a))
  }

  /** Which of the ways of being in step with the chain are meant. */
  datatype Mode = Mode(tracked: bool, lined: bool, fronted: bool)

  ghost predicate AllInStep(p: Pool, nonces: map<Address, nat>, env: Env, mode: Mode) {
    && (mode.tracked ==> Contiguous(p, nonces, env))
    && (mode.lined ==> AllLined(p, nonces, env))
    && (mode.fronted ==> AllFronted(p, nonces, env))
  }

  lemma DropKeepsStep(p: Pool, nonces: map<Address, nat>, env: Env, a: Address, mode: Mode)
    requires AllInStep(p, nonces, env, mode) && a in p.pending
    requires |p.pending[a]| >= 2 && p.pending[a] != map[] && NoEmpty(p.queue)
    ensures AllInStep(AfterDrop(p, a), SetIfLower(nonces, env, a, Highest(p.pending[a])), env, mode)
  {
    var nonces' := SetIfLower(nonces, env, a, Highest(p.pending[a]));
    if mode.tracked {
      DropKeepsContiguous(p, nonces, env, a);
    }
    if mode.lined {
      DropKeepsLined(p, nonces, env, a, nonces');
    }
    if mode.fronted {
      DropKeepsFronted(p, nonces, env, a, nonces');
    }
  }

  /** Dropping the highest of several pending transactions leaves the first one. */
  lemma DropKeepsFronted(p: Pool, nonces: map<Address, nat>, env: Env, a: Address, nonces': map<Address, nat>)
    requires AllFronted(p, nonces, env) && a in p.pending && |p.pending[a]| >= 2 && p.pending[a] != map[]
    requires NoEmpty(p.queue) && forall b | b != a :: Virtual(nonces', env, b) == Virtual(nonces, env, b)
    ensures AllFronted(AfterDrop(p, a), nonces', env)
  {
    var p', pend, h := AfterDrop(p, a), p.pending[a], Highest(p.pending[a]);
    assert Fronted(ViewOf(p, nonces, env, a), env, a);
    assert |{h}| == 1 < |pend.Keys|;
    assert h == env.nonce(a) ==> pend.Keys == {h};
    forall b ensures Fronted(ViewOf(p', nonces', env, b), env, b) {
      assert Fronted(ViewOf(p, nonces, env, b), env, b);
      OfSet(p.pending, a, pend - {h}, b);
      OfSet(p.queue, a, Of(p.queue, a), b);
      assert b == a ==> env.nonce(a) in pend - {h};
    }
  }

  /** The virtual nonce follows the dropped transaction. */
  lemma DropKeepsContiguous(p: Pool, nonces: map<Address, nat>, env: Env, a: Address)
    requires Contiguous(p, nonces, env) && a in p.pending && p.pending[a] != map[]
    ensures Contiguous(AfterDrop(p, a), SetIfLower(nonces, env, a, Highest(p.pending[a])), env)
  {
    var pend, que, h := p.pending[a], Of(p.queue, a), Highest(p.pending[a]);
    assert OnTrack(env.nonce(a), Virtual(nonces, env, a), Of(p.pending, a), que);
    assert h + 1 !in pend;
    SetTrack(p, nonces, env, AfterDrop(p, a), SetIfLower(nonces, env, a, h), a, pend - {h}, que);
  }

  /** Dropping the highest of several pending transactions opens no gap. */
  lemma DropKeepsLined(p: Pool, nonces: map<Address, nat>, env: Env, a: Address, nonces': map<Address, nat>)
    requires AllLined(p, nonces, env) && a in p.pending && |p.pending[a]| >= 2 && p.pending[a] != map[]
    requires NoEmpty(p.queue) && forall b | b != a :: Virtual(nonces', env, b) == Virtual(nonces, env, b)
    ensures AllLined(AfterDrop(p, a), nonces', env)
  {
    var p' := AfterDrop(p, a);
    forall b ensures LinedUp(env.nonce(b), ViewOf(p', nonces', env, b)) {
      assert LinedUp(env.nonce(b), ViewOf(p, nonces, env, b));
      OfSet(p.queue, a, Of(p.queue, a), b);
      OfSet(p.pending, a, p.pending[a] - {Highest(p.pending[a])}, b);
      if b == a {
        DropTop(p.pending[a], env.nonce(a));
      }
    }
  }

  lemma DropTop(pend: Txs, state: nat)
    requires GapFree(pend) && state in pend && (forall n <- pend :: state <= n) && |pend| >= 2 && pend != map[]
    ensures var k: Txs := pend - {Highest(pend)}; GapFree(k) && state in k
  {
    MapMinus(pend, Highest(pend));
    var k: Txs := pend - {Highest(pend)};
    var n :| n in k;
    assert state <= n < Highest(pend);
  }

  lemma DropCounts(lists: Lists, a: Address)
    requires a in lists && |lists[a]| >= 2 && lists[a] != map[]
    ensures lists[a] - {Highest(lists[a])} != map[]
  {
    MapMinus(lists[a], Highest(lists[a]));
  }

  lemma DropLeavesQueue(p: Pool, a: Address)
    requires Consistent(p) && a in p.pending && p.pending[a] != map[]
    ensures AfterDrop(p, a).queue == p.queue
  {
    SetSame(p.queue, a);
  }

  lemma {:induction false} RoundTotal(lists: Lists, locals: set<Address>, e: nat, offenders: seq<Address>, k: nat)
    requires Offending(lists, locals, offenders, e + 1, e) && k <= |offenders|
    ensures Total(Between(lists, locals, e, offenders, k)) == Total(Between(lists, locals, e, offenders, 0)) - k
    decreases k
  {
    if k > 0 {
      var before := k - 1;
      RoundTotal(lists, locals, e, offenders, before);
      DropStep(lists, locals, e, offenders, before, k);
    }
  }

  lemma DropStep(lists: Lists, locals: set<Address>, e: nat, offenders: seq<Address>, i: nat, next: nat)
    requires next == i + 1 <= |offenders| && Offending(lists, locals, offenders, e + 1, e)
    ensures Total(Between(lists, locals, e, offenders, next)) == Total(Between(lists, locals, e, offenders, i)) - 1
  {
    BetweenStep(lists, locals, e, offenders, i, next);
    TotalDrop(Between(lists, locals, e, offenders, i), offenders[i]);
  }

  lemma TotalDrop(lists: Lists, a: Address)
    requires a in lists && lists[a] != map[]
    ensures Total(lists[a := lists[a] - {Highest(lists[a])}]) == Total(lists) - 1
  {
    var k: Txs := lists[a] - {Highest(lists[a])};
    MapMinus(lists[a], Highest(lists[a]));
    TotalTake(lists, a);
    TotalTake(lists[a := k], a);
    assert lists[a := k] - {a} == lists - {a};
  }

  // ---------- the queue ----------

  /** What truncating the queue may do: local accounts keep everything, any other list keeps its lowest
      nonces, and an account is touched only after every account with a later heartbeat is emptied. */
  ghost predicate Trimmed(lists: Lists, lists': Lists, locals: set<Address>, beats: Address -> int) {
    && (forall a <- lists :: a in locals ==> a in lists' && lists'[a] == lists[a])
    && (forall a <- lists' :: a in lists && lists'[a] == CapTo(lists[a], |lists'[a]|))
    && (forall a <- lists,
        b <- lists | a !in locals && b !in locals && beats(a) < beats(b) && Of(lists', a) != lists[a] :: b !in lists')
  }

  /** The pending lists are cut to one common level, the highest that fits unless it is the guaranteed
      allowance. */
  ghost predicate LevelCut(lists: Lists, lists': Lists, locals: set<Address>, config: Config, level: nat) {
    && lists' == Level(lists, locals, level) && Tight(lists, locals, level, config.globalSlots)
    && config.accountSlots <= level && (Total(lists') <= config.globalSlots || level == config.accountSlots)
  }

  /** The queue fits, unless local accounts alone overfill it. */
  ghost predicate QueueCut(lists: Lists, lists': Lists, locals: set<Address>, config: Config, beats: Address -> int) {
    && Trimmed(lists, lists', locals, beats)
    && (Total(lists') <= config.globalQueue || forall a <- lists' :: a in locals)
  }

  /** Half way: the accounts in `rest` have not been looked at; as long as `more` must go, the others are empty. */
  ghost predicate Trimming(lists: Lists, lists': Lists, locals: set<Address>, beats: Address -> int, rest: set<Address>,
                           more: bool) {
    && Trimmed(lists, lists', locals, beats)
    && (forall a <- rest :: a in lists && a !in locals && a in lists' && lists'[a] == lists[a])
    && (forall a <- lists, b <- rest :: a !in locals && a !in rest ==> beats(b) <= beats(a))
    && (more ==> forall a <- lists :: a in locals || a in rest || a !in lists')
  }

  lemma TrimStarts(lists: Lists, locals: set<Address>, beats: Address -> int, rest: set<Address>)
    requires rest == set a | a in lists && a !in locals
    ensures Trimming(lists, lists, locals, beats, rest, true)
  {
    forall a | a in lists ensures lists[a] == CapTo(lists[a], |lists[a]|) {
      CapWhole(lists[a], |lists[a]|);
    }
  }

  /** The account with the latest heartbeat is cut to its lowest `k` nonces. */
  lemma TrimStep(lists: Lists, lists': Lists, locals: set<Address>, beats: Address -> int, rest: set<Address>,
                 a: Address, k: Txs, more: bool)
    requires Trimming(lists, lists', locals, beats, rest, true)
    requires a in rest && (forall b <- rest :: beats(b) <= beats(a))
    requires k == CapTo(lists[a], |k|) && (more ==> k == map[])
    ensures Trimming(lists, SetOf(lists', a, k), locals, beats, rest - {a}, more)
  {
    TrimKeepsOrder(lists, lists', locals, beats, rest, a, k);
    TrimKeepsLowest(lists, lists', a, k);
  }

  lemma TrimKeepsLowest(lists: Lists, lists': Lists, a: Address, k: Txs)
    requires a in lists && k == CapTo(lists[a], |k|)
    requires forall b <- lists' :: b in lists && lists'[b] == CapTo(lists[b], |lists'[b]|)
    ensures var lists'' := SetOf(lists', a, k);
            forall b <- lists'' :: b in lists && lists''[b] == CapTo(lists[b], |lists''[b]|)
  {
  }

  lemma TrimKeepsOrder(lists: Lists, lists': Lists, locals: set<Address>, beats: Address -> int, rest: set<Address>,
                       a: Address, k: Txs)
    requires Trimming(lists, lists', locals, beats, rest, true)
    requires a in rest && (forall b <- rest :: beats(b) <= beats(a))
    ensures var lists'' := SetOf(lists', a, k);
            forall x <- lists, y <- lists | x !in locals && y !in locals && beats(x) < beats(y) && Of(lists'', x) != lists[x] :: y !in lists''
  {
    var lists'' := SetOf(lists', a, k);
    forall x, y | x in lists && y in lists && x !in locals && y !in locals && beats(x) < beats(y) && Of(lists'', x) != lists[x]
      ensures y !in lists''
    {
      OfSet(lists', a, k, x);
      assert y != a;
    }
  }

  lemma CapNothing(m: Txs)
    ensures CapTo(m, 0) == map[]
  {
  }

  lemma {:induction false} LatestExists(s: set<Address>, beats: Address -> int)
    requires s != {}
    ensures exists x :: x in s && forall b <- s :: beats(b) <= beats(x)
    decreases s
  {
    var y :| y in s;
    if s == {y} {
      assert forall b <- s :: b == y;
    } else {
      LatestExists(s - {y}, beats);
      var x :| x in s - {y} && forall b <- s - {y} :: beats(b) <= beats(x);
      var z := if beats(x) < beats(y) then y else x;
      assert forall b <- s :: b == y || b in s - {y};
      assert z in s && forall b <- s :: beats(b) <= beats(z);
    }
  }

  /** Removing a queued transaction leaves pending lists and virtual nonces alone. */
  lemma RemoveQueuedFacts(p: Pool, nonces: map<Address, nat>, env: Env, a: Address, n: nat, mode: Mode)
    requires Consistent(p) && n in Of(p.queue, a)
    ensures var tx := Of(p.queue, a)[n];
            && AfterRemove(p, tx).pending == p.pending && NoncesAfterRemove(p, nonces, env, tx) == nonces
            && AfterRemove(p, tx).queue == SetOf(p.queue, a, Of(p.queue, a) - {n})
            && AfterRemove(p, tx).remoteTxs <= p.remoteTxs
            && (AllInStep(p, nonces, env, mode) ==> AllInStep(AfterRemove(p, tx), nonces, env, mode))
  {
    var tx := Of(p.queue, a)[n];
    assert AccountOk(a, Of(p.pending, a), Of(p.queue, a));
    assert Filed(p, tx);
    SetSame(p.pending, a);
    var p' := AfterRemove(p, tx);
    RemoveKeepsInStep(p, nonces, env, tx);
    if AllLined(p, nonces, env) {
      forall b ensures LinedUp(env.nonce(b), ViewOf(p', nonces, env, b)) {
        assert LinedUp(env.nonce(b), ViewOf(p, nonces, env, b));
        OfSet(p.queue, a, Of(p.queue, a) - {n}, b);
      }
    }
  }

  lemma CapLower(m: Txs, size: nat, less: nat)
    requires size == less + 1 <= |m|
    ensures CapTo(m, size) != map[] && CapTo(m, less) == CapTo(m, size) - {Highest(CapTo(m, size))}
  {
    CapStep(m, less);
  }

  lemma TrimFacts(lists: Lists, lists': Lists, locals: set<Address>, beats: Address -> int, rest: set<Address>,
                  a: Address,
                  size: nat, k: Txs, more: bool)
    requires Trimming(lists, lists', locals, beats, rest, true)
    requires a in rest && (forall b <- rest :: beats(b) <= beats(a))
    requires size <= |lists[a]| && k == CapTo(lists[a], size) && (more ==> size == 0)
    ensures Trimming(lists, SetOf(lists', a, k), locals, beats, rest - {a}, more)
    ensures Total(SetOf(lists', a, k)) == Total(lists') - |lists[a]| + size
  {
    CapLength(lists[a], size);
    TrimStep(lists, lists', locals, beats, rest, a, k, more);
    TotalSet(lists', a, k);
  }

  /** The lowest nonces of a list, however many. */
  ghost predicate Cut(list: Txs, left: Txs) {
    |left| <= |list| && left == CapTo(list, |left|)
  }

  lemma CutStarts(lists: Lists, a: Address)
    requires NoEmpty(lists)
    ensures Cut(Of(lists, a), Of(lists, a)) && SetOf(lists, a, Of(lists, a)) == lists
  {
    CapWhole(Of(lists, a), |Of(lists, a)|);
    SetSame(lists, a);
  }

  lemma CutStep(list: Txs, left: Txs)
    requires Cut(list, left) && |left| > 0
    ensures left != map[] && Cut(list, left - {Highest(left)}) && |left - {Highest(left)}| == |left| - 1
  {
    assert left != map[];
    MapMinus(left, Highest(left));
    CapLower(list, |left|, |left - {Highest(left)}|);
  }

  // ---------- a whole maintenance run ----------

  /** The accounts in `done` have their virtual nonce set past their highest pending one. */
  ghost predicate SettledNonces(nonces: map<Address, nat>, nonces': map<Address, nat>, env: Env, pending: Lists,
                                done: set<Address>)
    requires NoEmpty(pending) && done <= pending.Keys
  {
    forall a :: Virtual(nonces', env, a) == if a in done then Highest(pending[a]) + 1 else Virtual(nonces, env, a)
  }

  /** Settling the virtual nonces turns lined-up lists into contiguous ones. */
  lemma SettledTracks(p: Pool, nonces: map<Address, nat>, nonces': map<Address, nat>, env: Env)
    requires Consistent(p) && AllLined(p, nonces, env) && SettledNonces(nonces, nonces', env, p.pending, p.pending.Keys)
    ensures Contiguous(p, nonces', env)
  {
    forall a ensures OnTrack(env.nonce(a), Virtual(nonces', env, a), Of(p.pending, a), Of(p.queue, a)) {
      assert LinedUp(env.nonce(a), ViewOf(p, nonces, env, a));
      if a in p.pending {
        assert forall n: nat | env.nonce(a) <= n <= Highest(p.pending[a]) :: n in p.pending[a];
      }
    }
  }

  lemma TrackedIsLined(p: Pool, nonces: map<Address, nat>, env: Env)
    requires Contiguous(p, nonces, env)
    ensures AllLined(p, nonces, env)
  {
    forall a ensures LinedUp(env.nonce(a), ViewOf(p, nonces, env, a)) {
      var v := ViewOf(p, nonces, env, a);
      assert OnTrack(env.nonce(a), v.next, v.pend, v.que);
      if v.pend == map[] {
        assert v.next - 1 !in v.pend;
      }
    }
  }

  /** What the pool looks like to a chain in another state, before any maintenance. */
  ghost predicate NoGapAhead(p: Pool, env: Env) {
    forall a :: GapFree(Of(p.pending, a)) && !GapLeft(ViewOf(p, map[], env, a), env, a)
  }

  /** Every account has been promoted and then demoted. */
  ghost predicate Refreshed(p0: Pool, nonces0: map<Address, nat>, p: Pool, nonces: map<Address, nat>, env: Env,
                            config: Config, locals: set<Address>) {
    forall a :: ViewOf(p, nonces, env, a) == DemoteOne(PromoteOne(ViewOf(p0, nonces0, env, a), env, config, locals, a),
                                                       env, a)
  }

  lemma RefreshSteps(p0: Pool, nonces0: map<Address, nat>, p1: Pool, nonces1: map<Address, nat>, p2: Pool,
                     env: Env, config: Config, locals: set<Address>)
    requires Promoted(p0, nonces0, p1, nonces1, env, config, locals, p0.queue.Keys)
    requires Demoted(p1, p2, nonces1, env, p1.pending.Keys)
    ensures Refreshed(p0, nonces0, p2, nonces1, env, config, locals)
  {
    forall a ensures ViewOf(p2, nonces1, env, a) == DemoteOne(PromoteOne(ViewOf(p0, nonces0, env, a), env, config, locals, a), env, a) {
      RefreshOne(p0, nonces0, p1, nonces1, p2, env, config, locals, a);
    }
  }

  /** All accounts end up in line with the new state if and only if no eviction took a virtual nonce below it
      and no queued run stops short of a pending list. */
  lemma RefreshLinesUp(p0: Pool, nonces0: map<Address, nat>, p: Pool, nonces: map<Address, nat>, env: Env,
                       config: Config,
                       locals: set<Address>)
    requires Consistent(p0) && AllRewound(p0, nonces0, env) && Refreshed(p0, nonces0, p, nonces, env, config, locals)
    ensures AllLined(p, nonces, env) <==> AtChain(nonces0, env) && NoGapAhead(p0, env)
  {
    forall a ensures LinedUp(env.nonce(a), ViewOf(p, nonces, env, a)) <==>
                     Virtual(nonces0, env, a) == env.nonce(a) && !GapLeft(ViewOf(p0, map[], env, a), env, a)
    {
      var v0 := ViewOf(p0, nonces0, env, a);
      assert AccountOk(a, v0.pend, v0.que) && Rewound(env.nonce(a), v0);
      RestoredIff(v0, env, config, locals, a);
    }
    assert forall a :: Rewound(env.nonce(a), ViewOf(p0, nonces0, env, a)) ==> GapFree(Of(p0.pending, a));
  }

  lemma RefreshOne(p0: Pool, nonces0: map<Address, nat>, p1: Pool, nonces1: map<Address, nat>, p2: Pool, env: Env,
                   config: Config, locals: set<Address>, a: Address)
    requires Promoted(p0, nonces0, p1, nonces1, env, config, locals, p0.queue.Keys)
    requires Demoted(p1, p2, nonces1, env, p1.pending.Keys)
    ensures ViewOf(p2, nonces1, env, a) == DemoteOne(PromoteOne(ViewOf(p0, nonces0, env, a), env, config, locals, a),
                                                     env, a)
  {
    var v0, v1, v2 := ViewOf(p0, nonces0, env, a), ViewOf(p1, nonces1, env, a), ViewOf(p2, nonces1, env, a);
    if a !in p0.queue {
      NothingQueued(v0.pend, v0.next, env, config, locals, a);
    }
    if a !in p1.pending {
      NothingPending(v1, env, a);
    }
  }

  // ---------- what every run keeps ----------

  lemma PromotedFronts(p0: Pool, nonces0: map<Address, nat>, p: Pool, nonces: map<Address, nat>, env: Env, config: Config,
                       locals: set<Address>, done: set<Address>)
    requires Consistent(p0) && AllFronted(p0, nonces0, env)
    requires Promoted(p0, nonces0, p, nonces, env, config, locals, done)
    ensures AllFronted(p, nonces, env)
  {
    forall a ensures Fronted(ViewOf(p, nonces, env, a), env, a) {
      var v0 := ViewOf(p0, nonces0, env, a);
      assert AccountOk(a, v0.pend, v0.que) && Fronted(v0, env, a);
      PromoteFronts(v0, env, config, locals, a);
    }
  }

  /** Demoting fronted accounts changes nothing. */
  lemma DemotedIdle(p0: Pool, p: Pool, nonces: map<Address, nat>, env: Env, done: set<Address>)
    requires AllFronted(p0, nonces, env) && Demoted(p0, p, nonces, env, done)
    ensures AllFronted(p, nonces, env) && (Contiguous(p0, nonces, env) ==> Contiguous(p, nonces, env))
  {
    forall a ensures ViewOf(p, nonces, env, a) == ViewOf(p0, nonces, env, a) {
      assert Fronted(ViewOf(p0, nonces, env, a), env, a);
      DemoteIdle(ViewOf(p0, nonces, env, a), env, a);
    }
    forall a ensures Fronted(ViewOf(p, nonces, env, a), env, a) {
      assert Fronted(ViewOf(p0, nonces, env, a), env, a);
    }
    if Contiguous(p0, nonces, env) {
      forall a ensures OnTrack(env.nonce(a), Virtual(nonces, env, a), Of(p.pending, a), Of(p.queue, a)) {
        assert OnTrack(env.nonce(a), Virtual(nonces, env, a), Of(p0.pending, a), Of(p0.queue, a));
        assert ViewOf(p, nonces, env, a) == ViewOf(p0, nonces, env, a);
      }
    }
  }

  /** After a change of chain state every account is fronted, whatever was reinjected or evicted. */
  lemma RefreshedFronts(pending: Lists, p0: Pool, nonces0: map<Address, nat>, p: Pool, nonces: map<Address, nat>, env: Env,
                        config: Config, locals: set<Address>)
    requires Consistent(p0) && AllAnchored(pending, p0, nonces0, env)
    requires Refreshed(p0, nonces0, p, nonces, env, config, locals)
    ensures AllFronted(p, nonces, env)
  {
    forall a ensures Fronted(ViewOf(p, nonces, env, a), env, a) {
      var v0 := ViewOf(p0, nonces0, env, a);
      assert AccountOk(a, v0.pend, v0.que);
      assert Anchored(Of(pending, a), env.nonce(a), v0);
      RefreshFronts(v0, env, config, locals, a);
    }
  }

  /** Under an unchanged chain state fronted accounts stay fronted, and contiguous ones in line. */
  lemma RefreshKeepsFronts(p0: Pool, nonces0: map<Address, nat>, p: Pool, nonces: map<Address, nat>, env: Env, config: Config,
                           locals: set<Address>)
    requires Consistent(p0) && AllFronted(p0, nonces0, env) && Refreshed(p0, nonces0, p, nonces, env, config, locals)
    ensures AllFronted(p, nonces, env) && FirstsAffordable(p0, env)
    ensures Contiguous(p0, nonces0, env) ==> AllLined(p, nonces, env)
  {
    forall a ensures Fronted(ViewOf(p, nonces, env, a), env, a) && FirstAffordable(ViewOf(p0, map[], env, a), env, a) {
      var v0 := ViewOf(p0, nonces0, env, a);
      assert AccountOk(a, v0.pend, v0.que) && Fronted(v0, env, a);
      PromoteFronts(v0, env, config, locals, a);
      DemoteIdle(PromoteOne(v0, env, config, locals, a), env, a);
    }
    if Contiguous(p0, nonces0, env) {
      RefreshInPlace(p0, nonces0, p, nonces, env, config, locals);
    }
  }

  lemma SettledFronts(p: Pool, nonces: map<Address, nat>, nonces': map<Address, nat>, env: Env)
    requires NoEmpty(p.pending) && AllFronted(p, nonces, env)
    requires SettledNonces(nonces, nonces', env, p.pending, p.pending.Keys)
    ensures AllFronted(p, nonces', env)
  {
    forall a ensures Fronted(ViewOf(p, nonces', env, a), env, a) {
      assert Fronted(ViewOf(p, nonces, env, a), env, a);
    }
  }

  ghost predicate FirstsAffordable(p: Pool, env: Env) {
    forall a :: FirstAffordable(ViewOf(p, map[], env, a), env, a)
  }

  /** Refreshing a pool that is in step with the chain, under the same chain state. */
  lemma RefreshInPlace(p0: Pool, nonces0: map<Address, nat>, p: Pool, nonces: map<Address, nat>, env: Env, config: Config,
                       locals: set<Address>)
    requires Consistent(p0) && Contiguous(p0, nonces0, env) && Refreshed(p0, nonces0, p, nonces, env, config, locals)
    ensures AllLined(p, nonces, env) <==> FirstsAffordable(p0, env)
  {
    forall a ensures LinedUp(env.nonce(a), ViewOf(p, nonces, env, a)) <==> FirstAffordable(ViewOf(p0, map[], env, a), env, a) {
      var v0 := ViewOf(p0, nonces0, env, a);
      assert AccountOk(a, v0.pend, v0.que) && OnTrack(env.nonce(a), v0.next, v0.pend, v0.que);
      RefreshedIff(v0, env, config, locals, a);
    }
  }

  /** A pool in step with a chain is ready for any other state, forward or backward. */
  lemma TrackedIsReady(p: Pool, nonces: map<Address, nat>, env: Env, env': Env)
    requires Consistent(p) && Contiguous(p, nonces, env)
    ensures NoGapAhead(p, env')
  {
    forall a ensures GapFree(Of(p.pending, a)) && !GapLeft(ViewOf(p, map[], env', a), env', a) {
      var v := ViewOf(p, nonces, env, a);
      assert AccountOk(a, v.pend, v.que);
      assert OnTrack(env.nonce(a), v.next, v.pend, v.que);
      TrackLeavesNoGap(env.nonce(a), v, env', a);
    }
  }

  /** What promotion and demotion do once another chain state is loaded. */
  lemma LoadedLinesUp(pending: Lists, p0: Pool, nonces0: map<Address, nat>, p: Pool, nonces: map<Address, nat>, env: Env,
                      config: Config, locals: set<Address>)
    requires Consistent(p0) && AllAnchored(pending, p0, nonces0, env)
    requires Refreshed(p0, nonces0, p, nonces, env, config, locals)
    ensures AllFronted(p, nonces, env) && (AtChain(nonces0, env) <==> StaleStay(pending, p0, env))
    ensures AllGapFree(p0) ==> (AllLined(p, nonces, env) <==> AtChain(nonces0, env) && NoGapAhead(p0, env))
  {
    RefreshedFronts(pending, p0, nonces0, p, nonces, env, config, locals);
    AtChainIff(pending, p0, nonces0, env);
    if AllGapFree(p0) {
      AnchoredIsRewound(pending, p0, nonces0, env);
      RefreshLinesUp(p0, nonces0, p, nonces, env, config, locals);
    }
  }

  /** And if it cannot be loaded. */
  lemma InPlaceLinesUp(p0: Pool, nonces0: map<Address, nat>, p: Pool, nonces: map<Address, nat>, env: Env, config: Config,
                       locals: set<Address>)
    requires Consistent(p0) && Refreshed(p0, nonces0, p, nonces, env, config, locals)
    ensures AllFronted(p0, nonces0, env) ==> AllFronted(p, nonces, env)
    ensures Contiguous(p0, nonces0, env) ==> (AllLined(p, nonces, env) <==> FirstsAffordable(p0, env))
    ensures Contiguous(p0, nonces0, env) && AllFronted(p0, nonces0, env) ==> AllLined(p, nonces, env)
  {
    if AllFronted(p0, nonces0, env) {
      RefreshKeepsFronts(p0, nonces0, p, nonces, env, config, locals);
    }
    if Contiguous(p0, nonces0, env) {
      RefreshInPlace(p0, nonces0, p, nonces, env, config, locals);
    }
  }

  /** Taking over the nonces of a chain state. */
  lemma ResetAnchors(p: Pool, env: Env)
    ensures AllAnchored(p.pending, p, map[], env)
  {
  }

  /** A level at or above the allowance spares local accounts and small senders, and nobody is cut below it. */
  lemma LevelSpares(lists: Lists, locals: set<Address>, e: nat, allowance: nat, a: Address)
    requires allowance <= e && a in lists
    ensures a in locals || |lists[a]| <= allowance ==> Level(lists, locals, e)[a] == lists[a]
    ensures |lists[a]| >= allowance ==> |Level(lists, locals, e)[a]| >= allowance
    ensures IsCapped(lists[a], Level(lists, locals, e)[a], if a in locals then |lists[a]| else e)
  {
    CapToIsCapped(lists[a], e);
  }
}
