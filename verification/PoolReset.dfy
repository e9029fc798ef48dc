/** Which transactions the pool takes back when the chain moves to another head: those of the abandoned
    blocks that the new branch does not include.
 */
module PoolReset {
  import opened Options
  import opened ChainTree
  import opened BlockChainModel

  /** Deeper changes are left alone. */
  const MAX_DEPTH := 64

  datatype Reinjection = Abort | Proceed(txs: set<TxHash>)

  function GetBlock(blocks: map<Hash, Header>, hash: Hash, number: int): Option<Header> {
    if hash in blocks && blocks[hash].number == number then Some(blocks[hash]) else None
  }

  function Distance(a: nat, b: nat): nat {
    if a < b then b - a else a - b
  }

  /** The transactions of `h`'s chain above height `c`. */
  ghost function BranchTxs(h: Header, c: nat): set<TxHash>
    requires Linked(h) && c <= h.number
  {
    BranchLookup(h, c).Keys
  }

  /** One block further down. */
  lemma BranchTxsExtend(h: Header, n: nat, m: nat)
    requires Linked(h) && 0 < n <= h.number && m == n - 1
    ensures BranchTxs(h, m) == BranchTxs(h, n) + AncestorAt(h, n).txs
  {
    BranchLookupExtend(h, n);
    assert EntriesOf(AncestorAt(h, n)).Keys == AncestorAt(h, n).txs;
  }

  /** Walks `block` down to height `n`, collecting the transactions passed. */
  method Collect(blocks: map<Hash, Header>, block: Header, n: nat) returns (b: Option<Header>, txs: set<TxHash>)
    requires Blocks(blocks) && Linked(block) && n <= block.number
    ensures b.Some? <==> StoredDownTo(blocks, block, n)
    ensures b.Some? ==> b.value == AncestorAt(block, n) && txs == BranchTxs(block, n)
  {
    b, txs := Some(block), {};
    var m := block.number;
    while b.value.number > n
      invariant b.Some? && n <= m <= block.number && b.value == AncestorAt(block, m)
      invariant StoredDownTo(blocks, block, m) && txs == BranchTxs(block, m)
      decreases m
    {
      var low := m - 1;
      AncestorParent(block, m);
      BranchTxsExtend(block, m, low);
      txs := txs + b.value.txs;
      b := GetBlock(blocks, b.value.parentHash, b.value.number - 1);
      if b.None? {
        return;
      }
      m := low;
    }
  }

  /** Walks two blocks of the same height down to their common ancestor, collecting further. */
  method Meet(blocks: map<Hash, Header>, a: Header, b: Header, discarded: set<TxHash>, included: set<TxHash>,
              ghost top: Header, ghost other: Header, ghost h: nat)
    returns (met: bool, lost: set<TxHash>, gained: set<TxHash>, ghost c: nat)
    requires Blocks(blocks) && Linked(top) && Linked(other) && h <= top.number && h <= other.number
    requires h == top.number || h == other.number
    requires a == AncestorAt(top, h) && StoredDownTo(blocks, top, h) && discarded == BranchTxs(top, h)
    requires b == AncestorAt(other, h) && StoredDownTo(blocks, other, h) && included == BranchTxs(other, h)
    ensures met ==> ForkAt(top, other, c) && StoredDownTo(blocks, top, c) && StoredDownTo(blocks, other, c)
    ensures met ==> lost == BranchTxs(top, c) && gained == BranchTxs(other, c)
    ensures !met ==> forall f: nat | ForkAt(top, other, f) ::
              !(StoredDownTo(blocks, top, f) && StoredDownTo(blocks, other, f))
  {
    lost, gained := discarded, included;
    var rem, add := Some(a), Some(b);
    c := h;
    while rem.value != add.value
      invariant rem.Some? && add.Some? && c <= h
      invariant rem.value == AncestorAt(top, c) && StoredDownTo(blocks, top, c) && lost == BranchTxs(top, c)
      invariant add.value == AncestorAt(other, c) && StoredDownTo(blocks, other, c) && gained == BranchTxs(other, c)
      invariant c < h ==> AncestorAt(top, c + 1) != AncestorAt(other, c + 1)
      decreases c
    {
      ghost var low := c - 1;
      ForkBelow(top, other, c);
      if c > 0 {
        AncestorParent(top, c);
        AncestorParent(other, c);
        BranchTxsExtend(top, c, low);
        BranchTxsExtend(other, c, low);
      }
      lost := lost + rem.value.txs;
      rem := GetBlock(blocks, rem.value.parentHash, rem.value.number - 1);
      if rem.None? {
        return false, {}, {}, c;
      }
      gained := gained + add.value.txs;
      add := GetBlock(blocks, add.value.parentHash, add.value.number - 1);
      if add.None? {
        return false, {}, {}, c;
      }
      c := low;
    }
    met := true;
  }

  /** What to reinject when the head moves from `oldHead` to `newHead`. */
  method Reinject(blocks: map<Hash, Header>, oldHead: Option<Header>, newHead: Header) returns (r: Reinjection)
    requires Blocks(blocks) && Linked(newHead) && Digest(newHead) in blocks
    requires oldHead.Some? ==> Linked(oldHead.value)
    ensures oldHead.None? || newHead.parentHash == Digest(oldHead.value) ==> r == Proceed({})
    ensures oldHead.Some? && newHead.parentHash != Digest(oldHead.value) ==>
              var a, b := oldHead.value, newHead;
              if Distance(a.number, b.number) > MAX_DEPTH then r == Proceed({})
              else if Digest(a) !in blocks then r == (if b.number >= a.number then Abort else Proceed({}))
              else forall c: nat | ForkAt(a, b, c) ::
                     r == if StoredDownTo(blocks, a, c) && StoredDownTo(blocks, b, c)
                          then Proceed(BranchTxs(a, c) - BranchTxs(b, c)) else Abort
  {
    if oldHead.None? || newHead.parentHash == Digest(oldHead.value) {
      return Proceed({});
    }
    if Distance(oldHead.value.number, newHead.number) > MAX_DEPTH {
      return Proceed({});
    }
    var rem := GetBlock(blocks, Digest(oldHead.value), oldHead.value.number);
    if rem.None? {
      return if newHead.number >= oldHead.value.number then Abort else Proceed({});
    }
    r := Difference(blocks, rem.value, newHead);
  }

  method Difference(blocks: map<Hash, Header>, old0: Header, new0: Header) returns (r: Reinjection)
    requires Blocks(blocks) && Linked(old0) && Linked(new0)
    ensures forall c: nat | ForkAt(old0, new0, c) ::
              r == if StoredDownTo(blocks, old0, c) && StoredDownTo(blocks, new0, c)
                   then Proceed(BranchTxs(old0, c) - BranchTxs(new0, c)) else Abort
  {
    var h := if old0.number < new0.number then old0.number else new0.number;
    var rem, discarded := Collect(blocks, old0, h);
    if rem.None? {
      return Abort;
    }
    var add, included := Collect(blocks, new0, h);
    if add.None? {
      return Abort;
    }
    var met, lost, gained;
    ghost var c;
    met, lost, gained, c := Meet(blocks, rem.value, add.value, discarded, included, old0, new0, h);
    if !met {
      return Abort;
    }
    OneFork(old0, new0, c);
    r := Proceed(lost - gained);
  }

  /** No transaction of the abandoned chain is lost: it is on the new chain or reinjected. */
  lemma NothingLost(a: Header, b: Header, c: nat, t: TxHash)
    requires Linked(a) && Linked(b) && ForkAt(a, b, c) && t in LookupOf(a)
    ensures t in LookupOf(b) || t in BranchTxs(a, c) - BranchTxs(b, c)
  {
    LookupSplit(a, c);
    LookupSplit(b, c);
  }
}
