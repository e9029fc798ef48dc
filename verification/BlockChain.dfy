/** The block chain's head bookkeeping: a canonical number-to-hash index and a transaction-to-block
    index, rewritten by reorganisations over a store of blocks.

    Blocks are the headers of `ChainTree`, with their transactions.
 */
module BlockChainModel {
  import opened Options
  import opened ChainTree
  import opened HeaderChainModel

  /** The transaction index a chain ending in `h` calls for; a later block wins over an earlier one. */
  ghost function LookupOf(h: Header): (m: map<TxHash, nat>)
    requires Linked(h)
    decreases h
  {
    (if h.parentHash.NoHash? then map[] else LookupOf(h.parentHash.header)) + EntriesOf(h)
  }

  function EntriesOf(h: Header): map<TxHash, nat> {
    map t | t in h.txs :: h.number
  }

  /** The blocks of `h`'s chain above height `n`, newest first. */
  ghost function Branch(h: Header, n: nat): (s: seq<Header>)
    requires Linked(h) && n <= h.number
  {
    seq(h.number - n, i requires 0 <= i < h.number - n => AncestorAt(h, h.number - i))
  }

  /** The entries that the blocks of `h`'s chain above height `n` contribute to the transaction index. */
  ghost function BranchLookup(h: Header, n: nat): map<TxHash, nat>
    requires Linked(h) && n <= h.number
    decreases h
  {
    if n == h.number then map[] else BranchLookup(h.parentHash.header, n) + EntriesOf(h)
  }

  /** `base` after writing the entries of the blocks of `h`'s chain above height `n`, oldest first. */
  ghost function WriteLookup(base: map<TxHash, nat>, h: Header, n: nat): map<TxHash, nat>
    requires Linked(h) && n <= h.number
    decreases h
  {
    if n == h.number then base else WriteLookup(base, h.parentHash.header, n) + EntriesOf(h)
  }

  lemma {:induction false} WriteLookupIsSum(base: map<TxHash, nat>, h: Header, n: nat)
    requires Linked(h) && n <= h.number
    ensures WriteLookup(base, h, n) == base + BranchLookup(h, n)
    decreases h
  {
    if n < h.number {
      var p := h.parentHash.header;
      WriteLookupIsSum(base, p, n);
      MapAssoc(base, BranchLookup(p, n), EntriesOf(h));
    }
  }

  lemma MapAssoc<K, V>(a: map<K, V>, b: map<K, V>, c: map<K, V>)
    ensures (a + b) + c == a + (b + c)
    ensures (a + b).Keys == a.Keys + b.Keys
  {
  }

  lemma {:induction false} LookupSplit(h: Header, n: nat)
    requires Linked(h) && n <= h.number
    ensures LookupOf(h) == LookupOf(AncestorAt(h, n)) + BranchLookup(h, n)
    decreases h
  {
    if n < h.number {
      var p := h.parentHash.header;
      LookupSplit(p, n);
      MapAssoc(LookupOf(AncestorAt(p, n)), BranchLookup(p, n), EntriesOf(h));
    }
  }

  lemma {:induction false} BranchLookupExtend(h: Header, n: nat)
    requires Linked(h) && 0 < n <= h.number
    ensures BranchLookup(h, n - 1) == EntriesOf(AncestorAt(h, n)) + BranchLookup(h, n)
    decreases h
  {
    if n < h.number {
      BranchLookupExtend(h.parentHash.header, n);
    }
  }

  /** Height `c` is where the chains of `a` and `b` part: the same block at `c`, different ones above. */
  ghost predicate ForkAt(a: Header, b: Header, c: nat)
    requires Linked(a) && Linked(b)
  {
    && c <= a.number && c <= b.number
    && AncestorAt(a, c) == AncestorAt(b, c)
    && (c < a.number && c < b.number ==> AncestorAt(a, c + 1) != AncestorAt(b, c + 1))
  }

  /** All proper ancestors of `h` down to height `n` are stored. */
  ghost predicate StoredDownTo(blocks: map<Hash, Header>, h: Header, n: nat)
    requires Linked(h) && n <= h.number
  {
    forall m: nat | n <= m < h.number :: Digest(AncestorAt(h, m)) in blocks
  }

  ghost predicate Blocks(blocks: map<Hash, Header>) {
    forall k <- blocks :: k == Digest(blocks[k])
  }

  datatype Fork = ForkFound(oldChain: seq<Header>, newChain: seq<Header>) | InvalidChain

  lemma BranchExtend(h: Header, n: nat)
    requires Linked(h) && 0 < n <= h.number
    ensures Branch(h, n - 1) == Branch(h, n) + [AncestorAt(h, n)]
  {
  }

  lemma SameAncestor(h: Header, m: nat, k: nat)
    requires Linked(h) && m == k < h.number
    ensures AncestorAt(h, m) == AncestorAt(h.parentHash.header, k)
  {
  }

  lemma BranchAt(h: Header, n: nat, i: nat, m: nat)
    requires Linked(h) && n <= h.number && n < m == h.number - i
    ensures Branch(h, n)[i] == AncestorAt(h, m)
  {
  }

  lemma BranchTail(h: Header, n: nat)
    requires Linked(h) && n < h.number
    ensures Branch(h, n)[1..] == Branch(h.parentHash.header, n)
  {
    var p := h.parentHash.header;
    var tail, whole := Branch(h, n)[1..], Branch(p, n);
    assert |tail| == |whole| == p.number - n;
    forall i | 0 <= i < |whole| ensures tail[i] == whole[i] {
      var next, m := i + 1, p.number - i;
      assert tail[i] == Branch(h, n)[next];
      BranchAt(h, n, next, m);
      BranchAt(p, n, i, m);
      SameAncestor(h, m, m);
    }
  }

  /** A fork height is the highest common height: below it the chains agree, above they never do. */
  lemma ForkIsHighest(a: Header, b: Header, c: nat, n: nat)
    requires Linked(a) && Linked(b) && ForkAt(a, b, c) && n <= a.number && n <= b.number
    ensures AncestorAt(a, n) == AncestorAt(b, n) <==> n <= c
  {
    if n <= c {
      SharedBelow(a, b, c);
    } else if AncestorAt(a, n) == AncestorAt(b, n) {
      SharedBelow(a, b, n);
    }
  }

  /** Chains that differ at a height part below it. */
  lemma ForkBelow(a: Header, b: Header, c: nat)
    requires Linked(a) && Linked(b) && c <= a.number && c <= b.number && AncestorAt(a, c) != AncestorAt(b, c)
    ensures forall f: nat | ForkAt(a, b, f) :: f < c
  {
    forall f: nat | ForkAt(a, b, f) ensures f < c {
      ForkIsHighest(a, b, f, c);
    }
  }

  lemma OneFork(a: Header, b: Header, c: nat)
    requires Linked(a) && Linked(b) && ForkAt(a, b, c)
    ensures forall f: nat | ForkAt(a, b, f) :: f == c
  {
    forall f: nat | ForkAt(a, b, f) ensures f == c {
      ForkIsHighest(a, b, c, f);
      ForkIsHighest(a, b, f, c);
    }
  }

  /** An executed block offered to the chain, with what decides a tie. */
  datatype Offer = Offer(block: Header, currentPreserve: bool, blockPreserve: bool, coin: bool)

  predicate TieGoesTo(o: Offer) {
    !o.currentPreserve && (o.blockPreserve || o.coin)
  }

  /** If the block becomes the head, both indexes come out right. */
  ghost predicate KeepsIndexes(t: Tree, o: Offer) {
    o.block.parentHash in t.stored && Linked(o.block) && Linked(t.head) && Prefers(o.block, t.head, TieGoesTo(o)) ==>
      forall c: nat | ForkAt(t.head, o.block, c) :: IndexCondition(t.head, o.block, c) && LookupCondition(t.head, o.block, c)
  }

  ghost predicate AllContiguous(run: seq<Offer>) {
    forall i | 0 <= i < |run| :: Contiguous([run[i].block])
  }

  ghost predicate AllKeepIndexes(t: Tree, genesis: Header, run: seq<Offer>)
    requires TreeOk(t, genesis) && Linked(t.head) && Heaviest(t, genesis) && AllContiguous(run)
    decreases |run|
  {
    run == [] || (
      && KeepsIndexes(t, run[0])
      && (InsertKeepsHeaviest(t, genesis, [run[0].block], TieGoesTo(run[0]));
          AllKeepIndexes(Insert(t, genesis, [run[0].block], TieGoesTo(run[0])), genesis, run[1..])))
  }

  /** What a run of blocks makes of the store and the head. */
  ghost function AfterRun(t: Tree, genesis: Header, run: seq<Offer>): Tree
    requires TreeOk(t, genesis) && Linked(t.head) && Heaviest(t, genesis) && AllContiguous(run)
    decreases |run|
  {
    if run == [] then t
    else
      InsertKeepsHeaviest(t, genesis, [run[0].block], TieGoesTo(run[0]));
      AfterRun(Insert(t, genesis, [run[0].block], TieGoesTo(run[0])), genesis, run[1..])
  }

  lemma StoredBlock(blocks: map<Hash, Header>, b: Header)
    ensures blocks[Digest(b) := b].Keys == blocks.Keys + HashesOf([b], 1)
  {
    assert HashesOf([b], 1) == HashesOf([b], 0) + {Digest(b)};
  }

  class BlockChain {
    const genesis: Header
    var blocks: map<Hash, Header>
    var td: map<Hash, nat>
    var canonical: map<nat, Hash>
    var lookup: map<TxHash, nat>
    var currentBlock: Header
    var currentHeader: Header
    var currentFast: Header

    constructor (genesis: Header)
      requires genesis.parentHash == NoHash && genesis.number == 0
      ensures OnHeaviest() && this.genesis == genesis && Abs() == Tree({Digest(genesis)}, genesis)
    {
      this.genesis := genesis;
      blocks, td := map[Digest(genesis) := genesis], map[Digest(genesis) := genesis.difficulty];
      canonical, lookup := map[0 := Digest(genesis)], EntriesOf(genesis);
      currentBlock, currentHeader, currentFast := genesis, genesis, genesis;
    }

    function GetBlock(hash: Hash, number: int): (r: Option<Header>)
      reads this
    {
      if hash in blocks && blocks[hash].number == number then Some(blocks[hash]) else None
    }

    /** Walks `block` back to height `n`, collecting the blocks passed. */
    method WalkDown(block: Header, n: nat) returns (chain: seq<Header>, b: Option<Header>)
      requires Blocks(blocks) && Linked(block) && n <= block.number
      ensures b.Some? <==> StoredDownTo(blocks, block, n)
      ensures b.Some? ==> b.value == AncestorAt(block, n) && chain == Branch(block, n)
    {
      chain, b := [], Some(block);
      var m := block.number;
      while b.Some? && b.value.number != n
        invariant n <= m <= block.number
        invariant b.Some? ==> StoredDownTo(blocks, block, m) && b.value == AncestorAt(block, m) && chain == Branch(block, m)
        invariant b.None? ==> !StoredDownTo(blocks, block, n)
        decreases b.Some?, m
      {
        AncestorParent(block, m);
        BranchExtend(block, m);
        chain := chain + [b.value];
        b := GetBlock(b.value.parentHash, b.value.number - 1);
        m := m - 1;
      }
    }

    /** Walks the longer chain down to the height of the shorter one. */
    method ToSameHeight(oldHead: Header, newHead: Header)
      returns (oldChain: seq<Header>, newChain: seq<Header>, o: Option<Header>, n: Option<Header>, ghost c: nat)
      requires Blocks(blocks) && Linked(oldHead) && Linked(newHead)
      ensures c == if oldHead.number > newHead.number then newHead.number else oldHead.number
      ensures o.Some? && n.Some? <==> StoredDownTo(blocks, oldHead, c) && StoredDownTo(blocks, newHead, c)
      ensures o.Some? && n.Some? ==>
                && o.value == AncestorAt(oldHead, c) && oldChain == Branch(oldHead, c)
                && n.value == AncestorAt(newHead, c) && newChain == Branch(newHead, c)
    {
      oldChain, newChain, o, n := [], [], Some(oldHead), Some(newHead);
      if oldHead.number > newHead.number {
        c := newHead.number;
        oldChain, o := WalkDown(oldHead, newHead.number);
      } else {
        c := oldHead.number;
        newChain, n := WalkDown(newHead, oldHead.number);
      }
    }

    /** The two branches above the highest common ancestor, or an error exactly when a block needed to
        reach it is not stored. */
    method FindFork(oldHead: Header, newHead: Header) returns (r: Fork, ghost c: nat)
      requires Blocks(blocks) && Linked(oldHead) && Linked(newHead)
      ensures r.ForkFound? ==>
                && ForkAt(oldHead, newHead, c)
                && StoredDownTo(blocks, oldHead, c) && StoredDownTo(blocks, newHead, c)
                && r.oldChain == Branch(oldHead, c) && r.newChain == Branch(newHead, c)
      ensures r.InvalidChain? ==> forall c: nat | ForkAt(oldHead, newHead, c) ::
                !(StoredDownTo(blocks, oldHead, c) && StoredDownTo(blocks, newHead, c))
      ensures forall f: nat | ForkAt(oldHead, newHead, f) ::
                r.ForkFound? ==> r == ForkFound(Branch(oldHead, f), Branch(newHead, f))
    {
      var oldChain, newChain, o, n;
      oldChain, newChain, o, n, c := ToSameHeight(oldHead, newHead);
      if o.None? || n.None? {
        return InvalidChain, c;
      }
      while o.value != n.value
        invariant o.Some? && n.Some? && c <= oldHead.number && c <= newHead.number
        invariant o.value == AncestorAt(oldHead, c) && n.value == AncestorAt(newHead, c)
        invariant StoredDownTo(blocks, oldHead, c) && StoredDownTo(blocks, newHead, c)
        invariant oldChain == Branch(oldHead, c) && newChain == Branch(newHead, c)
        invariant c < oldHead.number && c < newHead.number ==> AncestorAt(oldHead, c + 1) != AncestorAt(newHead, c + 1)
        decreases c
      {
        ForkBelow(oldHead, newHead, c);
        ghost var low := if c > 0 then c - 1 else 0;
        oldChain, o := StepDown(oldHead, o.value, oldChain, c, low);
        if o.None? {
          return InvalidChain, c;
        }
        newChain, n := StepDown(newHead, n.value, newChain, c, low);
        if n.None? {
          return InvalidChain, c;
        }
        c := low;
      }
      r := ForkFound(oldChain, newChain);
      OneFork(oldHead, newHead, c);
    }

    /** One block further down the chain of `head`. */
    method StepDown(head: Header, block: Header, chain: seq<Header>, ghost c: nat, ghost low: nat)
      returns (chain': seq<Header>, b: Option<Header>)
      requires Blocks(blocks) && Linked(head) && c <= head.number && (c > 0 ==> low == c - 1)
      requires block == AncestorAt(head, c) && chain == Branch(head, c) && StoredDownTo(blocks, head, c)
      ensures b.Some? ==> c > 0 && b.value == AncestorAt(head, low) && StoredDownTo(blocks, head, low) && chain' == Branch(head, low)
      ensures b.None? ==> forall f: nat | f < c :: !StoredDownTo(blocks, head, f)
    {
      if c > 0 {
        AncestorParent(head, c);
        BranchExtend(head, c);
      }
      chain' := chain + [block];
      b := GetBlock(block.parentHash, block.number - 1);
      assert c > 0 && b.None? ==> Digest(AncestorAt(head, low)) !in blocks;
    }

    /** Makes `block` the head: index entry, transaction entries and head markers. */
    method WriteHeadBlock(block: Header)
      modifies this`canonical, this`lookup, this`currentBlock, this`currentHeader, this`currentFast
      ensures canonical == old(canonical)[block.number := Digest(block)]
      ensures lookup == old(lookup) + EntriesOf(block)
      ensures currentBlock == block
      ensures var moved := block.number !in old(canonical) || old(canonical)[block.number] != Digest(block);
              && currentHeader == (if moved then block else old(currentHeader))
              && currentFast == (if moved then block else old(currentFast))
    {
      var updateHeads := block.number !in canonical || canonical[block.number] != Digest(block);
      canonical := canonical[block.number := Digest(block)];
      lookup := lookup + EntriesOf(block);
      if updateHeads {
        currentHeader := block;
        currentFast := block;
      }
      currentBlock := block;
    }

    /** Collects the transactions of the abandoned branch. */
    method CollectTxs(chain: seq<Header>, ghost h: Header, ghost c: nat) returns (txs: set<TxHash>)
      requires Linked(h) && c <= h.number && chain == Branch(h, c)
      ensures txs == BranchLookup(h, c).Keys
    {
      txs := {};
      for i := 0 to |chain|
        invariant txs == BranchLookup(h, h.number - i).Keys
      {
        BranchLookupExtend(h, h.number - i);
        txs := txs + chain[i].txs;
      }
    }

    /** Inserts the new branch except its head block, oldest first. */
    method WriteBranch(newChain: seq<Header>, ghost newHead: Header, ghost c: nat)
      requires Linked(newHead) && c < newHead.number && newChain == Branch(newHead, c)
      modifies this`canonical, this`lookup, this`currentBlock, this`currentHeader, this`currentFast
      ensures var p := AncestorAt(newHead, newHead.number - 1);
              && canonical == WriteIndex(old(canonical), p, c)
              && lookup == WriteLookup(old(lookup), p, c)
              && currentBlock == if c < p.number then p else old(currentBlock)
    {
      ghost var n := c;
      for i := |newChain| downto 1
        invariant n == newHead.number - i
        invariant canonical == WriteIndex(old(canonical), AncestorAt(newHead, n), c)
        invariant lookup == WriteLookup(old(lookup), AncestorAt(newHead, n), c)
        invariant currentBlock == if n > c then AncestorAt(newHead, n) else old(currentBlock)
      {
        n := n + 1;
        AncestorParent(newHead, n);
        assert newChain[i] == AncestorAt(newHead, n);
        WriteHeadBlock(newChain[i]);
      }
    }

    /** Deletes the index entries above `number`, counting upwards until one is missing. */
    method ClearIndexAbove(number: nat, ghost top: nat)
      requires forall n: nat :: n in canonical <==> n <= top
      modifies this`canonical
      ensures canonical == IndexUpTo(old(canonical), number)
    {
      var marks := canonical;
      var i := number + 1;
      while i in canonical
        invariant number < i && canonical == old(canonical)
        invariant marks == map n | n in canonical && (n <= number || i <= n) :: canonical[n]
        decreases top + 1 - i
      {
        marks := marks - {i};
        i := i + 1;
      }
      canonical := marks;
    }

    /** The writes of a reorganisation, given the two branches. */
    method RewriteIndexes(oldChain: seq<Header>, newChain: seq<Header>, ghost newHead: Header, ghost c: nat)
      requires Linked(currentBlock) && Linked(newHead) && canonical == CanonicalOf(currentBlock)
      requires c <= currentBlock.number && c <= newHead.number
      requires oldChain == Branch(currentBlock, c) && newChain == Branch(newHead, c)
      modifies this`canonical, this`lookup, this`currentBlock, this`currentHeader, this`currentFast
      ensures canonical == ReorgedIndex(old(currentBlock), newHead, c)
      ensures lookup == ReorgedLookup(old(lookup), old(currentBlock), newHead, c)
    {
      ghost var oldHead := currentBlock;
      var deleted := CollectTxs(oldChain, oldHead, c);
      if newChain == [] {
        lookup := lookup - deleted;
        ClearIndexAbove(currentBlock.number, oldHead.number);
      } else {
        RewriteOnto(deleted, newChain, newHead, c);
      }
    }

    /** The writes of a reorganisation onto a branch that is not empty; `deleted` are the transactions of
        the old branch. */
    method RewriteOnto(deleted: set<TxHash>, newChain: seq<Header>, ghost newHead: Header, ghost c: nat)
      requires Linked(currentBlock) && Linked(newHead) && canonical == CanonicalOf(currentBlock)
      requires c <= currentBlock.number && c <= newHead.number && newChain == Branch(newHead, c) != []
      requires deleted == BranchLookup(currentBlock, c).Keys
      modifies this`canonical, this`lookup, this`currentBlock, this`currentHeader, this`currentFast
      ensures canonical == ReorgedIndex(old(currentBlock), newHead, c)
      ensures lookup == ReorgedLookup(old(lookup), old(currentBlock), newHead, c)
    {
      ghost var oldHead, p := currentBlock, newHead.parentHash.header;
      AncestorParent(newHead, newHead.number);
      WriteBranch(newChain, newHead, c);
      BranchTail(newHead, c);
      var added := CollectTxs(newChain[1..], p, c);
      WriteLookupIsSum(old(lookup), p, c);
      lookup := lookup - (deleted - added);
      WrittenIndex(oldHead, newHead, p, c, canonical, currentBlock.number);
      ClearIndexAbove(currentBlock.number, Max(oldHead.number, p.number));
    }

    /** Moves both indexes from the current block's chain towards `newHead`, whose own entries are left
        to `WriteHeadBlock`. */
    method Reorg(newHead: Header) returns (r: Fork, ghost c: nat)
      requires Blocks(blocks) && Linked(currentBlock) && Linked(newHead) && canonical == CanonicalOf(currentBlock)
      modifies this`canonical, this`lookup, this`currentBlock, this`currentHeader, this`currentFast
      ensures r.InvalidChain? ==> unchanged(this)
      ensures r.InvalidChain? ==> forall c: nat | ForkAt(old(currentBlock), newHead, c) ::
                !(StoredDownTo(blocks, old(currentBlock), c) && StoredDownTo(blocks, newHead, c))
      ensures r.ForkFound? ==>
                && ForkAt(old(currentBlock), newHead, c)
                && r.oldChain == Branch(old(currentBlock), c) && r.newChain == Branch(newHead, c)
                && canonical == ReorgedIndex(old(currentBlock), newHead, c)
                && lookup == ReorgedLookup(old(lookup), old(currentBlock), newHead, c)
    {
      r, c := FindFork(currentBlock, newHead);
      if r.ForkFound? {
        RewriteIndexes(r.oldChain, r.newChain, newHead, c);
      }
    }

    ghost predicate StoreValid()
      reads this
    {
      && Tables(blocks, td, genesis)
      && Digest(currentBlock) in blocks
    }

    /** Both indexes describe exactly the chain of the current block. */
    ghost predicate Valid()
      reads this
    {
      && StoreValid()
      && (assert Row(Digest(currentBlock), blocks, td);
          canonical == CanonicalOf(currentBlock) && lookup == LookupOf(currentBlock))
    }

    /** Makes a stored block the head, reorganising if it does not extend the current one.  The two
        indexes are right afterwards exactly under the two conditions, which depend on the chains only. */
    method WriteKnownBlock(block: Header)
      requires Valid() && Digest(block) in blocks
      modifies this`canonical, this`lookup, this`currentBlock, this`currentHeader, this`currentFast
      ensures StoreValid() && currentBlock == block && Linked(block) && Linked(old(currentBlock))
      ensures forall c: nat | ForkAt(old(currentBlock), block, c) ::
                && (canonical == CanonicalOf(block) <==> IndexCondition(old(currentBlock), block, c))
                && (lookup == LookupOf(block) <==> LookupCondition(old(currentBlock), block, c))
    {
      ghost var oldHead := currentBlock;
      ghost var c := Approach(block);
      WriteHeadBlock(block);
      IndexAfterReorg(oldHead, block, c);
      LookupAfterReorg(oldHead, block, c);
      OneFork(oldHead, block, c);
    }

    /** Reorganises towards a stored block unless it extends the current one. */
    method Approach(block: Header) returns (ghost c: nat)
      requires Valid() && Digest(block) in blocks
      modifies this`canonical, this`lookup, this`currentBlock, this`currentHeader, this`currentFast
      ensures Linked(block) && Linked(old(currentBlock)) && ForkAt(old(currentBlock), block, c)
      ensures canonical == ReorgedIndex(old(currentBlock), block, c)
      ensures lookup == ReorgedLookup(LookupOf(old(currentBlock)), old(currentBlock), block, c)
    {
      ghost var oldHead := currentBlock;
      assert Row(Digest(oldHead), blocks, td) && Row(Digest(block), blocks, td);
      c := oldHead.number;
      if block.parentHash != Digest(currentBlock) {
        AllStored(blocks, td, genesis, oldHead, block);
        var r;
        r, c := Reorg(block);
      } else {
        assert BranchLookup(oldHead, c) == map[];
      }
    }

    /** Stores an executed block and makes it the head if its total difficulty wins.  Ties go to the
        lower block, then to the locally preserved one, then to the coin. */
    method WriteBlockWithState(block: Header, currentPreserve: bool, blockPreserve: bool, coin: bool)
      returns (status: WriteStatus)
      requires Valid() && block.difficulty > 0
      requires block.parentHash.Digest? ==> Follows(block.parentHash.header, block)
      modifies this
      ensures status == NonStat <==> block.parentHash !in old(blocks)
      ensures status == NonStat ==> unchanged(this)
      ensures status != NonStat ==>
                && StoreValid() && Linked(block) && Linked(old(currentBlock))
                && blocks == old(blocks)[Digest(block) := block]
                && var wins := Prefers(block, old(currentBlock), !currentPreserve && (blockPreserve || coin));
                   && status == (if wins then CanonStat else SideStat)
                   && currentBlock == (if wins then block else old(currentBlock))
                   && forall c: nat | ForkAt(old(currentBlock), block, c) ::
                        Valid() <==> !wins || (IndexCondition(old(currentBlock), block, c) && LookupCondition(old(currentBlock), block, c))
    {
      if block.parentHash !in td {
        return NonStat;
      }
      ghost var oldHead := currentBlock;
      assert Row(block.parentHash, blocks, td) && Row(Digest(oldHead), blocks, td);
      var localTd := td[Digest(currentBlock)];
      var externTd := block.difficulty + td[block.parentHash];
      AddBlock(blocks, td, genesis, block);
      td := td[Digest(block) := externTd];
      blocks := blocks[Digest(block) := block];
      var wins := externTd > localTd;
      if externTd == localTd {
        if block.number < currentBlock.number {
          wins := true;
        } else if block.number == currentBlock.number {
          wins := !currentPreserve && (blockPreserve || coin);
        }
      }
      if wins {
        WriteKnownBlock(block);
        status := CanonStat;
      } else {
        status := SideStat;
      }
    }

    ghost function Abs(): Tree
      reads this
    {
      Tree(blocks.Keys, currentBlock)
    }

    ghost predicate OnHeaviest()
      reads this
      ensures OnHeaviest() ==> Linked(currentBlock)
    {
      && Valid() && TreeOk(Abs(), genesis)
      && (assert Row(Digest(currentBlock), blocks, td); Heaviest(Abs(), genesis))
    }

    /** One block of a run. */
    method WriteNext(o: Offer)
      requires OnHeaviest() && Contiguous([o.block]) && KeepsIndexes(Abs(), o)
      modifies this
      ensures OnHeaviest() && Abs() == Insert(old(Abs()), genesis, [o.block], TieGoesTo(o))
    {
      ghost var t, oldHead := Abs(), currentBlock;
      InsertKeepsHeaviest(t, genesis, [o.block], TieGoesTo(o));
      StoredBlock(blocks, o.block);
      var status := WriteBlockWithState(o.block, o.currentPreserve, o.blockPreserve, o.coin);
      if status != NonStat {
        OneRoot(blocks.Keys, genesis, oldHead, o.block);
        ghost var c := ForkExists(oldHead, o.block, 0);
        assert ForkAt(oldHead, o.block, c);
        assert Abs() == Insert(t, genesis, [o.block], TieGoesTo(o));
      }
    }

    /** Over every run of blocks that each meet the two conditions when they become the head, the indexes are
        exactly those of the current block's chain, and no stored block is heavier. */
    method WriteRun(run: seq<Offer>)
      requires OnHeaviest() && AllContiguous(run) && AllKeepIndexes(Abs(), genesis, run)
      modifies this
      ensures OnHeaviest() && Abs() == AfterRun(old(Abs()), genesis, run)
    {
      ghost var t := Abs();
      for i := 0 to |run|
        invariant OnHeaviest() && AllContiguous(run[i..]) && AllKeepIndexes(Abs(), genesis, run[i..])
        invariant AfterRun(t, genesis, run) == AfterRun(Abs(), genesis, run[i..])
      {
        assert run[i..][0] == run[i] && run[i..][1..] == run[i + 1..];
        WriteNext(run[i]);
      }
    }

    /** The same for executed blocks, which repeat no transaction: every block that becomes the head only has to
        be high enough. */
    method WriteExecutedRun(run: seq<Offer>)
      requires OnHeaviest() && AllContiguous(run) && NoRepeats(currentBlock) && Executed(run)
      requires AllHighEnough(Abs(), genesis, run)
      modifies this
      ensures OnHeaviest() && Abs() == AfterRun(old(Abs()), genesis, run)
    {
      ExecutedRunsKeepIndexes(Abs(), genesis, run);
      WriteRun(run);
    }
  }

  lemma AddBlock(blocks: map<Hash, Header>, td: map<Hash, nat>, genesis: Header, b: Header)
    requires Tables(blocks, td, genesis) && b.parentHash in blocks && b.difficulty > 0
    requires b.parentHash.Digest? && Follows(b.parentHash.header, b)
    ensures Linked(b) && TotalDifficulty(b) == b.difficulty + td[b.parentHash]
    ensures Tables(blocks[Digest(b) := b], td[Digest(b) := TotalDifficulty(b)], genesis)
  {
    assert Row(b.parentHash, blocks, td);
    AddRow(blocks, td, b);
    InsertRooted(Tree(blocks.Keys, genesis), genesis, [b]);
    assert HashesOf([b], 1) == HashesOf([b], 0) + {Digest(b)};
    assert blocks[Digest(b) := b].Keys == blocks.Keys + HashesOf([b], 1);
  }

  // ---------- when the indexes end up right ----------

  lemma ParentAt(p: Header, h: Header)
    requires Follows(p, h) && Linked(p)
    ensures Linked(h) && AncestorAt(h, p.number) == p
  {
  }

  /** A block that is heavier than two blocks of the old chain but only one above the fork: it is
      preferred, and the stale index entry above it is never cleared. */
  lemma ShortReorgBreaksIndex(g: Header, a1: Header, a2: Header, b: Header, coin: bool)
    requires g.parentHash == NoHash && g.number == 0
    requires Follows(g, a1) && Follows(a1, a2) && Follows(g, b) && a1 != b
    requires b.difficulty > a1.difficulty + a2.difficulty
    ensures Linked(a2) && Linked(b) && ForkAt(a2, b, 0) && Prefers(b, a2, coin) && !IndexCondition(a2, b, 0)
  {
    ParentAt(g, a1);
    ParentAt(a1, a2);
    ParentAt(g, b);
    AncestorOfAncestor(a2, a1.number, g.number);
    assert TotalDifficulty(a2) == a2.difficulty + TotalDifficulty(a1);
  }

  /** A transaction repeated in the abandoned block and below the fork loses its entry. */
  lemma RepeatedTxLosesEntry(g: Header, p: Header, a: Header, b: Header, t: TxHash)
    requires g.parentHash == NoHash && g.number == 0 && g.txs == {}
    requires Follows(g, p) && Follows(p, a) && Follows(p, b) && a != b
    requires t in p.txs && t in a.txs && t !in b.txs
    ensures Linked(a) && Linked(b) && ForkAt(a, b, 1) && !LookupCondition(a, b, 1)
  {
    ParentAt(g, p);
    ParentAt(p, a);
    ParentAt(p, b);
    assert BranchLookup(p, 1) == map[];
    assert t in BranchLookup(a, 1).Keys * LookupOf(p).Keys;
    assert t !in BranchLookup(b, 1);
  }

  /** No transaction is in two blocks of the chain.  Executed blocks are like that: once a transaction is in the
      chain its sender's nonce has moved on, and it is refused. */
  ghost predicate NoRepeats(h: Header)
    requires Linked(h)
    decreases h
  {
    h.parentHash.NoHash? || (h.txs !! LookupOf(h.parentHash.header).Keys && NoRepeats(h.parentHash.header))
  }

  lemma {:induction false} BranchIsApart(h: Header, c: nat)
    requires Linked(h) && NoRepeats(h) && c <= h.number
    ensures BranchLookup(h, c).Keys !! LookupOf(AncestorAt(h, c)).Keys
    decreases h
  {
    if c < h.number {
      BranchIsApart(h.parentHash.header, c);
      LookupSplit(h.parentHash.header, c);
    }
  }

  /** Without repeated transactions a reorganisation leaves the transaction index right. */
  lemma NoRepeatsKeepLookup(oldHead: Header, newHead: Header, c: nat)
    requires Linked(oldHead) && Linked(newHead) && ForkAt(oldHead, newHead, c) && NoRepeats(oldHead)
    ensures LookupCondition(oldHead, newHead, c)
  {
    BranchIsApart(oldHead, c);
  }

  /** If the block becomes the head, it is high enough for the number index. */
  ghost predicate HighEnough(t: Tree, o: Offer) {
    o.block.parentHash in t.stored && Linked(o.block) && Linked(t.head) && Prefers(o.block, t.head, TieGoesTo(o)) ==>
      forall c: nat | ForkAt(t.head, o.block, c) :: IndexCondition(t.head, o.block, c)
  }

  ghost predicate AllHighEnough(t: Tree, genesis: Header, run: seq<Offer>)
    requires TreeOk(t, genesis) && Linked(t.head) && Heaviest(t, genesis) && AllContiguous(run)
    decreases |run|
  {
    run == [] || (
      && HighEnough(t, run[0])
      && (InsertKeepsHeaviest(t, genesis, [run[0].block], TieGoesTo(run[0]));
          AllHighEnough(Insert(t, genesis, [run[0].block], TieGoesTo(run[0])), genesis, run[1..])))
  }

  ghost predicate Executed(run: seq<Offer>) {
    forall i | 0 <= i < |run| :: Linked(run[i].block) ==> NoRepeats(run[i].block)
  }

  /** Runs of executed blocks only have to be high enough. */
  lemma {:induction false} ExecutedRunsKeepIndexes(t: Tree, genesis: Header, run: seq<Offer>)
    requires TreeOk(t, genesis) && Linked(t.head) && Heaviest(t, genesis) && AllContiguous(run)
    requires NoRepeats(t.head) && Executed(run) && AllHighEnough(t, genesis, run)
    ensures AllKeepIndexes(t, genesis, run)
    decreases |run|
  {
    if run != [] {
      var o := run[0];
      if Linked(o.block) {
        forall c: nat | ForkAt(t.head, o.block, c) ensures LookupCondition(t.head, o.block, c) {
          NoRepeatsKeepLookup(t.head, o.block, c);
        }
      }
      InsertKeepsHeaviest(t, genesis, [o.block], TieGoesTo(o));
      ExecutedRunsKeepIndexes(Insert(t, genesis, [o.block], TieGoesTo(o)), genesis, run[1..]);
    }
  }

  function Max(a: int, b: int): int {
    if a < b then b else a
  }

  /** The index between `Reorg` and `WriteHeadBlock`. */
  ghost function ReorgedIndex(oldHead: Header, newHead: Header, c: nat): map<nat, Hash>
    requires Linked(oldHead) && Linked(newHead) && c <= newHead.number
  {
    if newHead.number < c + 2 then CanonicalOf(oldHead)
    else IndexUpTo(WriteIndex(CanonicalOf(oldHead), newHead.parentHash.header, c), newHead.number - 1)
  }

  /** The transaction index between `Reorg` and `WriteHeadBlock`. */
  ghost function ReorgedLookup(lookup: map<TxHash, nat>, oldHead: Header, newHead: Header, c: nat): map<TxHash, nat>
    requires Linked(oldHead) && Linked(newHead) && c <= oldHead.number && c <= newHead.number
  {
    var added := if c == newHead.number then map[] else BranchLookup(newHead.parentHash.header, c);
    (lookup + added) - (BranchLookup(oldHead, c).Keys - added.Keys)
  }

  /** The index once the branch below `newHead` is written, and after clearing it above `height`. */
  lemma WrittenIndex(oldHead: Header, newHead: Header, p: Header, c: nat, m: map<nat, Hash>, height: nat)
    requires Linked(oldHead) && Linked(newHead) && c <= oldHead.number
    requires c < newHead.number && newHead.parentHash == Digest(p)
    requires m == WriteIndex(CanonicalOf(oldHead), p, c) && height == if c < p.number then p.number else oldHead.number
    ensures forall n: nat :: n in m <==> n <= Max(oldHead.number, p.number)
    ensures IndexUpTo(m, height) == ReorgedIndex(oldHead, newHead, c)
  {
    forall n: nat ensures n in m <==> n <= Max(oldHead.number, p.number) {
      WriteIndexAt(CanonicalOf(oldHead), p, c, n);
    }
    if c == p.number {
      assert m == CanonicalOf(oldHead);
      assert IndexUpTo(m, height) == m;
    }
  }

  /** The new head is at least as high as the old one, or at least two blocks above the fork. */
  ghost predicate IndexCondition(oldHead: Header, newHead: Header, c: nat) {
    oldHead.number <= newHead.number || c + 2 <= newHead.number
  }

  /** Every transaction of the abandoned branch that also sits below the fork is in the new branch. */
  ghost predicate LookupCondition(oldHead: Header, newHead: Header, c: nat)
    requires Linked(oldHead) && Linked(newHead) && c <= oldHead.number && c <= newHead.number
  {
    BranchLookup(oldHead, c).Keys * LookupOf(AncestorAt(oldHead, c)).Keys <= BranchLookup(newHead, c).Keys + newHead.txs
  }

  lemma IndexAfterReorg(oldHead: Header, newHead: Header, c: nat)
    requires Linked(oldHead) && Linked(newHead) && ForkAt(oldHead, newHead, c)
    ensures var m := ReorgedIndex(oldHead, newHead, c)[newHead.number := Digest(newHead)];
            m == CanonicalOf(newHead) <==> IndexCondition(oldHead, newHead, c)
  {
    var m := ReorgedIndex(oldHead, newHead, c)[newHead.number := Digest(newHead)];
    SharedBelow(oldHead, newHead, c);
    if newHead.number >= c + 2 {
      var p := newHead.parentHash.header;
      forall n: nat ensures n in m <==> n <= newHead.number
                    ensures n <= newHead.number ==> m[n] == Digest(AncestorAt(newHead, n))
      {
        WriteIndexAt(CanonicalOf(oldHead), p, c, n);
      }
    } else if oldHead.number <= newHead.number {
      assert m == CanonicalOf(newHead);
    } else {
      assert oldHead.number in m && oldHead.number !in CanonicalOf(newHead);
    }
  }

  lemma LookupAfterReorg(oldHead: Header, newHead: Header, c: nat)
    requires Linked(oldHead) && Linked(newHead) && ForkAt(oldHead, newHead, c)
    ensures var m := ReorgedLookup(LookupOf(oldHead), oldHead, newHead, c) + EntriesOf(newHead);
            m == LookupOf(newHead) <==> LookupCondition(oldHead, newHead, c)
  {
    var base := LookupOf(AncestorAt(oldHead, c));
    var mine := BranchLookup(oldHead, c);
    var added := if c == newHead.number then map[] else BranchLookup(newHead.parentHash.header, c);
    LookupSplit(oldHead, c);
    LookupSplit(newHead, c);
    if c < newHead.number {
      MapAssoc(base, added, EntriesOf(newHead));
    }
    assert LookupOf(newHead) == (base + added) + EntriesOf(newHead);
    PruneAndWrite(base, mine, added, EntriesOf(newHead));
  }

  /** Deleting the keys of `mine` that `added` does not renew gives the right map unless `base` loses one. */
  lemma PruneAndWrite<K, V>(base: map<K, V>, mine: map<K, V>, added: map<K, V>, top: map<K, V>)
    ensures (((base + mine) + added) - (mine.Keys - added.Keys)) + top == (base + added) + top
       <==> mine.Keys * base.Keys <= added.Keys + top.Keys
  {
    var l := (((base + mine) + added) - (mine.Keys - added.Keys)) + top;
    var r := (base + added) + top;
    if l == r {
      forall k | k in mine && k in base ensures k in added || k in top {
        assert k in r && k in l;
      }
    } else if mine.Keys * base.Keys <= added.Keys + top.Keys {
      forall k ensures k in l <==> k in r
               ensures k in l ==> l[k] == r[k]
      {
        assert k in mine && k in base ==> k in mine.Keys * base.Keys;
      }
    }
  }

  lemma AllStored(blocks: map<Hash, Header>, td: map<Hash, nat>, genesis: Header, a: Header, b: Header)
    requires Tables(blocks, td, genesis) && Digest(a) in blocks && Digest(b) in blocks && Linked(a) && Linked(b)
    ensures Blocks(blocks)
    ensures exists c: nat :: ForkAt(a, b, c) && StoredDownTo(blocks, a, c) && StoredDownTo(blocks, b, c)
  {
    forall k | k in blocks ensures k == Digest(blocks[k]) {
      assert Row(k, blocks, td);
    }
    OneRoot(blocks.Keys, genesis, a, b);
    var c := ForkExists(a, b, 0);
    forall m: nat | m < a.number ensures Digest(AncestorAt(a, m)) in blocks {
      AncestorsStored(blocks.Keys, genesis, a, m);
    }
    forall m: nat | m < b.number ensures Digest(AncestorAt(b, m)) in blocks {
      AncestorsStored(blocks.Keys, genesis, b, m);
    }
  }

  /** Chains that share a block part somewhere. */
  lemma {:induction false} ForkExists(a: Header, b: Header, n: nat) returns (c: nat)
    requires Linked(a) && Linked(b) && n <= a.number && n <= b.number && AncestorAt(a, n) == AncestorAt(b, n)
    ensures ForkAt(a, b, c)
    decreases a.number - n
  {
    if ForkAt(a, b, n) {
      c := n;
    } else {
      c := ForkExists(a, b, n + 1);
    }
  }
}
