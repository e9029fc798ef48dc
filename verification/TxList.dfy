/** An account's transaction list: a nonce-sorted map with upper bounds on the cost and gas of its
    members.  A strict list (the pending one) must stay free of nonce gaps.

    The operations are given as functions on list values; the class updates its map in place and
    is proved to compute them.
 */
module TxListModel {
  import opened Options
  import opened Transactions
  import opened TxSortedMapModel

  datatype List = List(items: Txs, costcap: int, gascap: nat)

  ghost predicate CapsBound(l: List) {
    forall n <- l.items :: Cost(l.items[n]) <= l.costcap && l.items[n].gas <= l.gascap
  }

  ghost predicate ListOk(l: List) {
    Keyed(l.items) && CapsBound(l)
  }

  const EMPTY_LIST := List(map[], 0, 0)

  /** Whether `tx` may replace `prev`: both prices rise, and by at least `bump` percent, rounded down. */
  predicate Replaces(tx: Tx, prev: Tx, bump: nat) {
    && prev.feeCap < tx.feeCap && prev.tipCap < tx.tipCap
    && (100 + bump) * prev.feeCap / 100 <= tx.feeCap && (100 + bump) * prev.tipCap / 100 <= tx.tipCap
  }

  predicate Accepts(m: Txs, tx: Tx, bump: nat) {
    tx.nonce in m ==> Replaces(tx, m[tx.nonce], bump)
  }

  function Added(l: List, tx: Tx): List {
    List(l.items[tx.nonce := tx], if l.costcap < Cost(tx) then Cost(tx) else l.costcap,
         if l.gascap < tx.gas then tx.gas else l.gascap)
  }

  predicate Exceeds(tx: Tx, costLimit: int, gasLimit: nat) {
    tx.gas > gasLimit || Cost(tx) > costLimit
  }

  function Affordable(m: Txs, costLimit: int, gasLimit: nat): Txs {
    map n | n in m && !Exceeds(m[n], costLimit, gasLimit) :: m[n]
  }

  /** The part of `m` with no unaffordable transaction at or before it: what a strict list may keep. */
  function AffordablePrefix(m: Txs, costLimit: int, gasLimit: nat): Txs {
    map n | n in m && (forall k <- m :: k <= n ==> !Exceeds(m[k], costLimit, gasLimit)) :: m[n]
  }

  /** A full scan: what is left of a list once unaffordable transactions, and in strict mode everything
      after the first of them, are gone. */
  function Scan(m: Txs, costLimit: int, gasLimit: nat, strict: bool): Txs {
    if strict then AffordablePrefix(m, costLimit, gasLimit) else Affordable(m, costLimit, gasLimit)
  }

  /** Filtering consults the bounds first and scans only if they do not already settle the question. */
  function Filtered(l: List, costLimit: int, gasLimit: nat, strict: bool): List {
    if l.costcap <= costLimit && l.gascap <= gasLimit then l
    else List(Scan(l.items, costLimit, gasLimit, strict), costLimit, gasLimit)
  }

  /** Removing a nonce; a strict list also loses everything after it. */
  function Without(m: Txs, nonce: nat, strict: bool): Txs {
    if nonce !in m then m
    else if strict then Before(m, nonce)
    else m - {nonce}
  }

  // ---------- laws ----------

  /** Nonces without gaps. */
  ghost predicate GapFree(m: Txs) {
    forall a <- m, b <- m, n: nat | a <= n <= b :: n in m
  }

  lemma AddKeepsOk(l: List, tx: Tx)
    requires ListOk(l)
    ensures ListOk(Added(l, tx))
  {
  }

  /** The short circuit gives what a full scan would. */
  lemma FilterIsScan(l: List, costLimit: int, gasLimit: nat, strict: bool)
    requires ListOk(l)
    ensures Filtered(l, costLimit, gasLimit, strict).items == Scan(l.items, costLimit, gasLimit, strict)
    ensures ListOk(Filtered(l, costLimit, gasLimit, strict))
  {
    if l.costcap <= costLimit && l.gascap <= gasLimit {
      forall n | n in l.items ensures !Exceeds(l.items[n], costLimit, gasLimit) {
      }
      assert Affordable(l.items, costLimit, gasLimit) == l.items;
      assert AffordablePrefix(l.items, costLimit, gasLimit) == l.items;
    } else {
      var k := Scan(l.items, costLimit, gasLimit, strict);
      forall n | n in k ensures !Exceeds(k[n], costLimit, gasLimit) {
      }
    }
  }

  function TooDear(costLimit: int, gasLimit: nat): Tx -> bool {
    (tx: Tx) => tx.gas > gasLimit || Cost(tx) > costLimit
  }

  function After(nonce: nat): Tx -> bool {
    (tx: Tx) => tx.nonce > nonce
  }

  lemma KeepAffordable(m: Txs, costLimit: int, gasLimit: nat)
    ensures Keep(m, TooDear(costLimit, gasLimit)) == Affordable(m, costLimit, gasLimit)
  {
  }

  /** Removal in two steps: the nonce itself, then in a strict list what comes after it. */
  lemma WithoutKeepsOk(l: List, nonce: nat, strict: bool)
    requires ListOk(l)
    ensures ListOk(l.(items := Without(l.items, nonce, strict)))
    ensures nonce in l.items && strict ==> Without(l.items, nonce, strict) == Keep(l.items - {nonce}, After(nonce))
    ensures !(nonce in l.items && strict) ==> Without(l.items, nonce, strict) == l.items - {nonce}
  {
  }

  /** What a strict list keeps is what lies below the lowest unaffordable nonce. */
  lemma LowestCuts(m: Txs, costLimit: int, gasLimit: nat, lowest: nat)
    requires Keyed(m) && lowest in m && Exceeds(m[lowest], costLimit, gasLimit)
    requires forall n <- m :: Exceeds(m[n], costLimit, gasLimit) ==> lowest <= n
    ensures AffordablePrefix(m, costLimit, gasLimit) == Keep(Affordable(m, costLimit, gasLimit), After(lowest))
  {
  }

  /** The strict operations cut a list at a nonce, so none of them opens a gap. */
  lemma StrictKeepsGapFree(m: Txs, costLimit: int, gasLimit: nat, nonce: nat, threshold: nat)
    requires GapFree(m)
    ensures GapFree(Scan(m, costLimit, gasLimit, true))
    ensures GapFree(Without(m, nonce, true))
    ensures GapFree(From(m, threshold))
  {
  }

  lemma CapKeepsGapFree(m: Txs, k: Txs, threshold: nat)
    requires GapFree(m) && IsCapped(m, k, threshold)
    ensures GapFree(k)
  {
    forall a, b, n: nat | a in k && b in k && a <= n <= b ensures n in k {
      assert n in m;
    }
  }

  // ---------- the list object ----------

  class TxList {
    const strict: bool
    const txs: TxSortedMap
    var costcap: int
    var gascap: nat

    ghost function Abs(): List
      reads this, txs
    {
      List(txs.items, costcap, gascap)
    }

    ghost predicate Valid()
      reads this, txs
    {
      txs.Valid() && ListOk(Abs())
    }

    constructor (strict: bool)
      ensures Valid() && Abs() == EMPTY_LIST && this.strict == strict && fresh(txs)
    {
      this.strict := strict;
      var m := new TxSortedMap();
      txs := m;
      costcap, gascap := 0, 0;
    }

    method Add(tx: Tx, priceBump: nat) returns (inserted: bool, replaced: Option<Tx>)
      requires Valid()
      modifies this, txs
      ensures Valid() && inserted == Accepts(old(Abs()).items, tx, priceBump)
      ensures Abs() == if inserted then Added(old(Abs()), tx) else old(Abs())
      ensures replaced == if inserted && tx.nonce in old(txs.items) then Some(old(txs.items)[tx.nonce]) else None
    {
      replaced := None;
      if tx.nonce in txs.items {
        var prev := txs.items[tx.nonce];
        if prev.feeCap >= tx.feeCap || prev.tipCap >= tx.tipCap {
          return false, None;
        }
        var thresholdFeeCap := (100 + priceBump) * prev.feeCap / 100;
        var thresholdTip := (100 + priceBump) * prev.tipCap / 100;
        if tx.feeCap < thresholdFeeCap || tx.tipCap < thresholdTip {
          return false, None;
        }
        replaced := Some(prev);
      }
      AddKeepsOk(Abs(), tx);
      txs.Put(tx);
      if costcap < Cost(tx) {
        costcap := Cost(tx);
      }
      if gascap < tx.gas {
        gascap := tx.gas;
      }
      inserted := true;
    }

    /** Returns what is unaffordable and, in strict mode, what that invalidates. */
    method Filter(costLimit: int, gasLimit: nat) returns (removed: seq<Tx>, invalids: seq<Tx>)
      requires Valid()
      modifies this, txs
      ensures Valid() && Abs() == Filtered(old(Abs()), costLimit, gasLimit, strict)
      ensures IsRemainder(old(txs.items), Affordable(old(txs.items), costLimit, gasLimit), removed)
      ensures IsRemainder(Affordable(old(txs.items), costLimit, gasLimit), txs.items, invalids)
    {
      removed, invalids := [], [];
      ghost var m := txs.items;
      FilterIsScan(Abs(), costLimit, gasLimit, strict);
      if costcap <= costLimit && gascap <= gasLimit {
        FilterIsScan(Abs(), costLimit, gasLimit, false);
        return;
      }
      costcap, gascap := costLimit, gasLimit;
      KeepAffordable(m, costLimit, gasLimit);
      removed := txs.Filter(TooDear(costLimit, gasLimit));
      invalids := DropInvalid(removed, m, costLimit, gasLimit);
    }

    /** Drops what unaffordable transactions, already removed, invalidate. */
    method DropInvalid(removed: seq<Tx>, ghost m: Txs, ghost costLimit: int, ghost gasLimit: nat)
      returns (invalids: seq<Tx>)
      requires txs.Valid() && Keyed(m) && txs.items == Affordable(m, costLimit, gasLimit)
      requires IsRemainder(m, Affordable(m, costLimit, gasLimit), removed)
      modifies txs
      ensures txs.Valid() && txs.items == Scan(m, costLimit, gasLimit, strict)
      ensures IsRemainder(Affordable(m, costLimit, gasLimit), txs.items, invalids)
    {
      invalids := [];
      if |removed| == 0 {
        NothingDear(m, costLimit, gasLimit);
        return;
      }
      if strict {
        var lowest := LowestNonce(removed);
        LowestCuts(m, costLimit, gasLimit, lowest);
        invalids := txs.FilterOnly(After(lowest));
      }
      txs.Reheap();
    }

    method Remove(tx: Tx) returns (found: bool, invalids: seq<Tx>)
      requires Valid()
      modifies txs
      ensures Valid() && found == (tx.nonce in old(txs.items))
      ensures txs.items == Without(old(txs.items), tx.nonce, strict)
      ensures IsRemainder(old(txs.items) - {tx.nonce}, txs.items, invalids)
    {
      invalids := [];
      WithoutKeepsOk(Abs(), tx.nonce, strict);
      found := txs.Remove(tx.nonce);
      if found && strict {
        invalids := txs.Filter(After(tx.nonce));
      }
    }
  }

  method LowestNonce(txs: seq<Tx>) returns (lowest: nat)
    requires txs != []
    ensures exists tx :: tx in txs && tx.nonce == lowest
    ensures forall tx <- txs :: lowest <= tx.nonce
  {
    lowest := txs[0].nonce;
    for i := 0 to |txs|
      invariant exists tx :: tx in txs && tx.nonce == lowest
      invariant forall j | 0 <= j < i :: lowest <= txs[j].nonce
    {
      if lowest > txs[i].nonce {
        lowest := txs[i].nonce;
      }
    }
  }

  lemma NothingDear(m: Txs, costLimit: int, gasLimit: nat)
    requires Keyed(m) && IsRemainder(m, Affordable(m, costLimit, gasLimit), [])
    ensures AffordablePrefix(m, costLimit, gasLimit) == m == Affordable(m, costLimit, gasLimit)
  {
    forall n | n in m ensures !Exceeds(m[n], costLimit, gasLimit) {
      assert m[n] !in [];
    }
  }
}
