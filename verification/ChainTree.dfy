/** The tree of headers that the chain code walks.

    A hash is modelled symbolically: `Digest(h)` is the hash of header `h`, a free
    constructor, so hashing is injective and never yields the zero hash `NoHash`.
    A header commits to its parent by hash and to its transactions, of which only the set of
    hashes matters here.
 */
module ChainTree {

  type TxHash = nat

  datatype Hash = NoHash | Digest(header: Header)

  datatype Header = Header(parentHash: Hash, number: nat, difficulty: nat, txs: set<TxHash>, extra: nat)

  /** Numbers count the distance to a header without a parent, as header verification enforces. */
  ghost predicate Linked(h: Header) {
    match h.parentHash
    case NoHash => h.number == 0
    case Digest(p) => h.number == p.number + 1 && Linked(p)
  }

  /** The unique ancestor of `h` (or `h` itself) at height `n`: a plain parent walk. */
  ghost function AncestorAt(h: Header, n: nat): (a: Header)
    requires Linked(h) && n <= h.number
    ensures Linked(a) && a.number == n
    decreases h
  {
    if n == h.number then h else AncestorAt(h.parentHash.header, n)
  }

  /** Total difficulty: the sum of difficulties on the path to the root. */
  ghost function TotalDifficulty(h: Header): nat
    requires Linked(h)
    decreases h
  {
    h.difficulty + if h.parentHash.NoHash? then 0 else TotalDifficulty(h.parentHash.header)
  }

  /** The number-to-hash index that a chain ending in `h` calls for: one entry per height, none above. */
  ghost function CanonicalOf(h: Header): (m: map<nat, Hash>)
    requires Linked(h)
  {
    map n: nat | n <= h.number :: Digest(AncestorAt(h, n))
  }

  /** `t.stored` holds the hashes of all known headers, `t.head` is the chosen one. */
  datatype Tree = Tree(stored: set<Hash>, head: Header)

  ghost predicate Rooted(stored: set<Hash>, genesis: Header) {
    && genesis.parentHash == NoHash && genesis.number == 0
    && Digest(genesis) in stored
    && forall k {:trigger InTree(k, stored, genesis)} | k in stored :: InTree(k, stored, genesis)
  }

  ghost predicate InTree(k: Hash, stored: set<Hash>, genesis: Header) {
    && k.Digest?
    && Linked(k.header)
    && (k.header == genesis || (k.header.parentHash in stored && k.header.difficulty > 0))
  }

  ghost predicate IsChild(k: Hash, h: Header) {
    k.Digest? && k.header.parentHash == Digest(h)
  }

  /** A well-formed tree: rooted at genesis and ancestor-closed, its head a stored tip. */
  ghost predicate TreeOk(t: Tree, genesis: Header) {
    && Rooted(t.stored, genesis)
    && Digest(t.head) in t.stored
    && forall k <- t.stored :: !IsChild(k, t.head)
  }

  ghost predicate Heaviest(t: Tree, genesis: Header)
    requires Rooted(t.stored, genesis) && Linked(t.head)
  {
    forall k <- t.stored :: assert InTree(k, t.stored, genesis); TotalDifficulty(k.header) <= TotalDifficulty(t.head)
  }

  // ---------- facts about ancestry ----------

  lemma {:induction false} AncestorOfAncestor(h: Header, m: nat, n: nat)
    requires Linked(h) && n <= m <= h.number
    ensures AncestorAt(AncestorAt(h, m), n) == AncestorAt(h, n)
    decreases h
  {
    if m < h.number {
      AncestorOfAncestor(h.parentHash.header, m, n);
    }
  }

  lemma {:induction false} AncestorParent(h: Header, n: nat)
    requires Linked(h) && 0 < n <= h.number
    ensures AncestorAt(h, n).parentHash == Digest(AncestorAt(h, n - 1))
    decreases h
  {
    if n < h.number {
      AncestorParent(h.parentHash.header, n);
    }
  }

  /** Every ancestor of a stored header is stored, and the lowest one is genesis. */
  lemma {:induction false} AncestorsStored(stored: set<Hash>, genesis: Header, h: Header, n: nat)
    requires Rooted(stored, genesis) && Digest(h) in stored && Linked(h) && n <= h.number
    ensures Digest(AncestorAt(h, n)) in stored
    ensures n == 0 ==> AncestorAt(h, n) == genesis
    decreases h
  {
    assert InTree(Digest(h), stored, genesis);
    assert h.number == 0 && NoHash in stored ==> InTree(NoHash, stored, genesis);
    if n < h.number {
      AncestorsStored(stored, genesis, h.parentHash.header, n);
    }
  }

  /** Below genesis-excluded heights difficulty is positive, so proper ancestors are strictly lighter. */
  lemma {:induction false} AncestorLighter(stored: set<Hash>, genesis: Header, h: Header, n: nat)
    requires Rooted(stored, genesis) && Digest(h) in stored && Linked(h) && n <= h.number
    ensures TotalDifficulty(AncestorAt(h, n)) <= TotalDifficulty(h)
    ensures n < h.number ==> TotalDifficulty(AncestorAt(h, n)) < TotalDifficulty(h)
    decreases h
  {
    assert InTree(Digest(h), stored, genesis);
    if n < h.number {
      AncestorLighter(stored, genesis, h.parentHash.header, n);
    }
  }

  /** Cutting the index at a height is the index of the ancestor at that height. */
  lemma CanonicalCut(h: Header, n: nat)
    requires Linked(h) && n <= h.number
    ensures CanonicalOf(AncestorAt(h, n)) == map k | k in CanonicalOf(h) && k <= n :: CanonicalOf(h)[k]
  {
    forall k: nat | k <= n ensures AncestorAt(AncestorAt(h, n), k) == AncestorAt(h, k) {
      AncestorOfAncestor(h, n, k);
    }
  }

  /** `base` after writing the entries of `h`'s chain above height `c`, oldest first. */
  ghost function WriteIndex(base: map<nat, Hash>, h: Header, c: nat): map<nat, Hash>
    requires Linked(h) && c <= h.number
    decreases h
  {
    if c == h.number then base else WriteIndex(base, h.parentHash.header, c)[h.number := Digest(h)]
  }

  lemma {:induction false} WriteIndexAt(base: map<nat, Hash>, h: Header, c: nat, n: nat)
    requires Linked(h) && c <= h.number
    ensures var m := WriteIndex(base, h, c);
            if c < n <= h.number then n in m && m[n] == Digest(AncestorAt(h, n))
            else (n in m <==> n in base) && (n in m ==> m[n] == base[n])
    decreases h
  {
    if c < h.number {
      WriteIndexAt(base, h.parentHash.header, c, n);
    }
  }

  /** Written over an index that already agrees up to `c` and is empty above `h`, the result is `h`'s index. */
  lemma WriteIndexIsCanonical(base: map<nat, Hash>, h: Header, c: nat)
    requires Linked(h) && c <= h.number
    requires forall n: nat | n <= c :: n in base && base[n] == Digest(AncestorAt(h, n))
    requires forall n: nat | n > h.number :: n !in base
    ensures WriteIndex(base, h, c) == CanonicalOf(h)
  {
    var m := WriteIndex(base, h, c);
    forall n: nat ensures n in m <==> n <= h.number
                  ensures n <= h.number ==> m[n] == Digest(AncestorAt(h, n))
    {
      WriteIndexAt(base, h, c, n);
    }
  }

  // ---------- the reference fork choice ----------

  /** Prefer more total difficulty; on a tie the shorter chain; on a tie at equal height the coin. */
  ghost predicate Prefers(candidate: Header, head: Header, coin: bool)
    requires Linked(candidate) && Linked(head)
  {
    var a, b := TotalDifficulty(candidate), TotalDifficulty(head);
    a > b || (a == b && (candidate.number < head.number || (candidate.number == head.number && coin)))
  }

  ghost predicate Contiguous(batch: seq<Header>) {
    && (forall i | 0 <= i < |batch| :: batch[i].difficulty > 0)
    && (forall i | 0 < i < |batch| :: LinkAt(batch, i))
    && (|batch| > 0 && batch[0].parentHash.Digest? ==> Follows(batch[0].parentHash.header, batch[0]))
  }

  ghost predicate LinkAt(batch: seq<Header>, i: nat)
    requires 0 < i < |batch|
  {
    Follows(batch[i - 1], batch[i])
  }

  ghost predicate Follows(p: Header, h: Header) {
    h.parentHash == Digest(p) && h.number == p.number + 1
  }

  /** The hashes of the first `n` headers of a batch. */
  ghost function HashesOf(batch: seq<Header>, n: nat): (s: set<Hash>)
    requires n <= |batch|
  {
    if n == 0 then {} else HashesOf(batch, n - 1) + {Digest(batch[n - 1])}
  }

  lemma {:induction false} HashesOfHas(batch: seq<Header>, n: nat, i: nat)
    requires i < n <= |batch|
    ensures Digest(batch[i]) in HashesOf(batch, n)
  {
    if i < n - 1 {
      HashesOfHas(batch, n - 1, i);
    }
  }

  lemma {:induction false} HashesOfIndex(batch: seq<Header>, n: nat, k: Hash) returns (i: nat)
    requires n <= |batch| && k in HashesOf(batch, n)
    ensures i < n && k == Digest(batch[i])
  {
    if k == Digest(batch[n - 1]) {
      i := n - 1;
    } else {
      i := HashesOfIndex(batch, n - 1, k);
    }
  }

  lemma {:induction false} BatchLinked(stored: set<Hash>, genesis: Header, batch: seq<Header>, i: nat)
    requires Rooted(stored, genesis) && Contiguous(batch) && i < |batch|
    requires batch[0].parentHash in stored
    ensures Linked(batch[i]) && batch[i].number == batch[0].number + i
    ensures batch[i].parentHash.Digest?
    ensures i > 0 ==> batch[i].parentHash.header == batch[i - 1]
  {
    if i == 0 {
      assert InTree(batch[0].parentHash, stored, genesis);
    } else {
      BatchLinked(stored, genesis, batch, i - 1);
      assert LinkAt(batch, i);
    }
  }

  /** Insert a batch whose parent is known; move the head only if the batch's tip is preferred. */
  ghost function Insert(t: Tree, genesis: Header, batch: seq<Header>, coin: bool): Tree
    requires TreeOk(t, genesis) && Contiguous(batch)
  {
    if batch == [] || batch[0].parentHash !in t.stored then t
    else
      var last := batch[|batch| - 1];
      BatchLinked(t.stored, genesis, batch, |batch| - 1);
      assert InTree(Digest(t.head), t.stored, genesis);
      Tree(t.stored + HashesOf(batch, |batch|), if Prefers(last, t.head, coin) then last else t.head)
  }

  lemma InsertRooted(t: Tree, genesis: Header, batch: seq<Header>)
    requires Rooted(t.stored, genesis) && Contiguous(batch)
    requires batch != [] && batch[0].parentHash in t.stored
    ensures Rooted(t.stored + HashesOf(batch, |batch|), genesis)
  {
    var s := t.stored + HashesOf(batch, |batch|);
    forall k | k in s ensures InTree(k, s, genesis) {
      if k in t.stored {
        assert InTree(k, t.stored, genesis);
      } else {
        var i := HashesOfIndex(batch, |batch|, k);
        BatchLinked(t.stored, genesis, batch, i);
        if i > 0 {
          HashesOfHas(batch, |batch|, i - 1);
        }
      }
    }
  }

  /** Along a linked batch every element is an ancestor of the last one. */
  lemma {:induction false} BatchAncestor(stored: set<Hash>, genesis: Header, batch: seq<Header>, i: nat, j: nat)
    requires Rooted(stored, genesis) && Contiguous(batch) && i <= j < |batch|
    requires batch[0].parentHash in stored
    ensures Linked(batch[i]) && Linked(batch[j]) && batch[i].number <= batch[j].number
    ensures AncestorAt(batch[j], batch[i].number) == batch[i]
    decreases j
  {
    BatchLinked(stored, genesis, batch, i);
    BatchLinked(stored, genesis, batch, j);
    if i < j {
      BatchAncestor(stored, genesis, batch, i, j - 1);
    }
  }

  /** Known headers form a prefix of any contiguous batch. */
  lemma {:induction false} KnownPrefix(stored: set<Hash>, genesis: Header, batch: seq<Header>, i: nat, j: nat)
    requires Rooted(stored, genesis) && Contiguous(batch) && i <= j < |batch|
    requires batch[0].parentHash in stored && Digest(batch[j]) in stored
    ensures Digest(batch[i]) in stored
    decreases j - i
  {
    if i < j {
      BatchLinked(stored, genesis, batch, j);
      assert InTree(Digest(batch[j]), stored, genesis);
      KnownPrefix(stored, genesis, batch, i, j - 1);
    }
  }

  /** A header whose parent is the head outweighs it, so a batch that reaches a child of the head is preferred. */
  lemma ChildIsPreferred(t: Tree, genesis: Header, batch: seq<Header>, i: nat, coin: bool)
    requires TreeOk(t, genesis) && Contiguous(batch) && i < |batch|
    requires batch[0].parentHash in t.stored && batch[i].parentHash == Digest(t.head)
    ensures Linked(batch[|batch| - 1]) && Linked(t.head)
    ensures Prefers(batch[|batch| - 1], t.head, coin)
  {
    InsertRooted(t, genesis, batch);
    var s := t.stored + HashesOf(batch, |batch|);
    var last := batch[|batch| - 1];
    HashesOfHas(batch, |batch|, |batch| - 1);
    HashesOfHas(batch, |batch|, i);
    BatchAncestor(t.stored, genesis, batch, i, |batch| - 1);
    AncestorLighter(s, genesis, last, batch[i].number);
    assert InTree(Digest(batch[i]), s, genesis) && InTree(Digest(t.head), t.stored, genesis);
    assert TotalDifficulty(batch[i]) == batch[i].difficulty + TotalDifficulty(t.head);
  }

  /** Inserting keeps a tree well formed unless it moves the head onto an old header other than itself. */
  lemma InsertKeepsTree(t: Tree, genesis: Header, batch: seq<Header>, coin: bool)
    requires TreeOk(t, genesis) && Contiguous(batch)
    requires batch != [] && batch[0].parentHash in t.stored
    requires var last := batch[|batch| - 1];
             Digest(last) !in t.stored || Insert(t, genesis, batch, coin).head == t.head
    ensures TreeOk(Insert(t, genesis, batch, coin), genesis)
  {
    var last := batch[|batch| - 1];
    var t' := Insert(t, genesis, batch, coin);
    InsertRooted(t, genesis, batch);
    HashesOfHas(batch, |batch|, |batch| - 1);
    forall k | k in t'.stored ensures !IsChild(k, t'.head) {
      assert InTree(k, t'.stored, genesis);
      if k in t.stored {
        assert InTree(k, t.stored, genesis);
      } else {
        var i := HashesOfIndex(batch, |batch|, k);
        BatchLinked(t.stored, genesis, batch, i);
        BatchLinked(t.stored, genesis, batch, |batch| - 1);
        if k.header.parentHash == Digest(t.head) {
          ChildIsPreferred(t, genesis, batch, i, coin);
        }
      }
    }
  }

  lemma InsertKeepsHeaviest(t: Tree, genesis: Header, batch: seq<Header>, coin: bool)
    requires TreeOk(t, genesis) && Contiguous(batch)
    requires assert InTree(Digest(t.head), t.stored, genesis); Heaviest(t, genesis)
    ensures var t' := Insert(t, genesis, batch, coin);
            TreeOk(t', genesis) && Linked(t'.head) && Heaviest(t', genesis)
  {
    assert InTree(Digest(t.head), t.stored, genesis);
    if batch == [] || batch[0].parentHash !in t.stored { return; }
    var last := batch[|batch| - 1];
    var t' := Insert(t, genesis, batch, coin);
    InsertRooted(t, genesis, batch);
    BatchLinked(t.stored, genesis, batch, |batch| - 1);
    HashesOfHas(batch, |batch|, |batch| - 1);
    forall k | k in t'.stored
      ensures k.Digest? && Linked(k.header) && TotalDifficulty(k.header) <= TotalDifficulty(t'.head)
    {
      assert InTree(k, t'.stored, genesis);
      if k !in t.stored {
        var i := HashesOfIndex(batch, |batch|, k);
        BatchAncestor(t.stored, genesis, batch, i, |batch| - 1);
        AncestorLighter(t'.stored, genesis, last, batch[i].number);
      }
    }
    forall k | k in t'.stored ensures !IsChild(k, t'.head) {
      assert InTree(k, t'.stored, genesis);  // a child would outweigh the head
    }
  }

  /** One import: a batch together with the coin used should it tie with the head. */
  datatype Import = Import(batch: seq<Header>, coin: bool)

  ghost function InsertAll(t: Tree, genesis: Header, run: seq<Import>): (t': Tree)
    requires TreeOk(t, genesis) && Linked(t.head) && Heaviest(t, genesis)
    requires forall i | 0 <= i < |run| :: Contiguous(run[i].batch)
    ensures TreeOk(t', genesis) && Linked(t'.head) && Heaviest(t', genesis)
    decreases |run|
  {
    if run == [] then t
    else
      InsertKeepsHeaviest(t, genesis, run[0].batch, run[0].coin);
      InsertAll(Insert(t, genesis, run[0].batch, run[0].coin), genesis, run[1..])
  }

  /** Whatever is imported from genesis, in whatever order, the head is a heaviest stored header and a tip, and
      every batch whose parent was known when it came is stored. */
  lemma ForkChoiceOverRuns(genesis: Header, run: seq<Import>)
    requires genesis.parentHash == NoHash && genesis.number == 0
    requires forall i | 0 <= i < |run| :: Contiguous(run[i].batch)
    ensures var start := Tree({Digest(genesis)}, genesis);
            TreeOk(start, genesis) && Heaviest(start, genesis) &&
            var end := InsertAll(start, genesis, run);
            && TreeOk(end, genesis) && Heaviest(end, genesis) && start.stored <= end.stored
            && forall i, j | 0 <= i < |run| && 0 <= j < |run[i].batch| &&
                             run[i].batch[0].parentHash in InsertAll(start, genesis, run[..i]).stored ::
                 Digest(run[i].batch[j]) in end.stored
  {
    var start := Tree({Digest(genesis)}, genesis);
    StoredGrows(start, genesis, run);
    forall i, j | 0 <= i < |run| && 0 <= j < |run[i].batch| &&
                  run[i].batch[0].parentHash in InsertAll(start, genesis, run[..i]).stored
      ensures Digest(run[i].batch[j]) in InsertAll(start, genesis, run).stored
    {
      InsertAllSplit(start, genesis, run, i);
      StoredGrows(InsertAll(start, genesis, run[..i]), genesis, run[i..]);
      assert run[i..][0] == run[i];
    }
  }

  /** A run in two parts. */
  lemma {:induction false} InsertAllSplit(t: Tree, genesis: Header, run: seq<Import>, n: nat)
    requires TreeOk(t, genesis) && Linked(t.head) && Heaviest(t, genesis) && n <= |run|
    requires forall i | 0 <= i < |run| :: Contiguous(run[i].batch)
    ensures InsertAll(t, genesis, run) == InsertAll(InsertAll(t, genesis, run[..n]), genesis, run[n..])
    decreases n
  {
    if n == 0 {
      assert run[..0] == [] && run[0..] == run;
    } else {
      InsertKeepsHeaviest(t, genesis, run[0].batch, run[0].coin);
      InsertAllSplit(Insert(t, genesis, run[0].batch, run[0].coin), genesis, run[1..], n - 1);
      assert run[..n][1..] == run[1..][..n - 1] && run[n..] == run[1..][n - 1..];
    }
  }

  lemma {:induction false} StoredGrows(t: Tree, genesis: Header, run: seq<Import>)
    requires TreeOk(t, genesis) && Linked(t.head) && Heaviest(t, genesis)
    requires forall i | 0 <= i < |run| :: Contiguous(run[i].batch)
    ensures t.stored <= InsertAll(t, genesis, run).stored
    ensures forall i, j | 0 <= i < |run| && 0 <= j < |run[i].batch| && run[i].batch[0].parentHash in t.stored ::
              Digest(run[i].batch[j]) in InsertAll(t, genesis, run).stored
    decreases |run|
  {
    if run != [] {
      var op := run[0];
      InsertKeepsHeaviest(t, genesis, op.batch, op.coin);
      var t' := Insert(t, genesis, op.batch, op.coin);
      StoredGrows(t', genesis, run[1..]);
      forall j | 0 <= j < |op.batch| && op.batch[0].parentHash in t.stored
        ensures Digest(op.batch[j]) in t'.stored
      {
        HashesOfHas(op.batch, |op.batch|, j);
      }
      forall i, j | 0 <= i < |run| && 0 <= j < |run[i].batch| && run[i].batch[0].parentHash in t.stored
        ensures Digest(run[i].batch[j]) in InsertAll(t, genesis, run).stored
      {
        if i > 0 {
          assert run[1..][i - 1] == run[i];
        }
      }
    }
  }

  // ---------- rewinding ----------

  ghost function Rewind(t: Tree, n: nat): Tree
    requires Linked(t.head) && n <= t.head.number
  {
    Tree((set k | k in t.stored && k.Digest? && k.header.number <= n), AncestorAt(t.head, n))
  }

  lemma RewindKeepsTree(t: Tree, genesis: Header, n: nat)
    requires TreeOk(t, genesis) && Linked(t.head) && n <= t.head.number
    ensures TreeOk(Rewind(t, n), genesis)
  {
    var t' := Rewind(t, n);
    forall k | k in t'.stored ensures InTree(k, t'.stored, genesis) {
      assert InTree(k, t.stored, genesis);
      if k.header != genesis {
        assert InTree(k.header.parentHash, t.stored, genesis);
      }
    }
    AncestorsStored(t.stored, genesis, t.head, n);
  }
}
