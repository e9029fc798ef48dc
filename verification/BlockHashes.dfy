/** The function that the virtual machine uses to look up the hashes of recent blocks.  It walks the parent
    links of the block being executed and remembers the hashes it has passed.

    Block numbers are 64-bit and wrap around, which matters for queries at or above the block itself and
    when the walk runs past genesis.
 */
module BlockHashes {
  import opened Options
  import opened ChainTree

  const TWO_TO_64 := 0x1_0000_0000_0000_0000

  /** A difference of two 64-bit numbers. */
  function Wrap(x: int): (w: nat)
    requires -TWO_TO_64 <= x < TWO_TO_64
    ensures w < TWO_TO_64
  {
    if x < 0 then x + TWO_TO_64 else x
  }

  /** A header is found under its own hash and number. */
  function GetHeader(stored: set<Hash>, hash: Hash, number: nat): Option<Header> {
    if hash in stored && hash.Digest? && hash.header.number == number then Some(hash.header) else None
  }

  /** The `i`-th parent link up the branch of `ref`: the hash of the block `i + 1` below it. */
  ghost function LinkOf(ref: Header, i: nat): Hash
    requires Linked(ref) && i <= ref.number
  {
    if i < ref.number then Digest(AncestorAt(ref, ref.number - 1 - i)) else NoHash
  }

  /** The headers behind the first `k` links are stored. */
  ghost predicate PathStored(ref: Header, stored: set<Hash>, k: nat)
    requires Linked(ref) && k <= ref.number
  {
    forall i: nat | i < k :: LinkOf(ref, i) in stored
  }

  /** The hash of the block at height `n` on the branch of `ref`, provided the headers on the way there are
      stored; the zero hash otherwise, and for all heights from `ref` upwards. */
  ghost function HashAt(ref: Header, stored: set<Hash>, n: nat): Hash
    requires Linked(ref)
  {
    if n < ref.number && PathStored(ref, stored, ref.number - 1 - n) then LinkOf(ref, ref.number - 1 - n) else NoHash
  }

  /** On a complete chain every height below `ref` has an answer: the ancestor's hash. */
  lemma CompleteChainAnswers(ref: Header, stored: set<Hash>, genesis: Header, n: nat)
    requires Linked(ref) && n < ref.number && Rooted(stored, genesis) && ref.parentHash in stored
    ensures HashAt(ref, stored, n) == Digest(AncestorAt(ref, n))
  {
    forall i: nat | i < ref.number - 1 - n ensures LinkOf(ref, i) in stored {
      assert InTree(ref.parentHash, stored, genesis);
      AncestorsStored(stored, genesis, ref.parentHash.header, ref.number - 1 - i);
    }
  }

  ghost predicate AreLinks(cache: seq<Hash>, ref: Header)
    requires Linked(ref) && |cache| <= ref.number + 1
  {
    forall i | 0 <= i < |cache| :: cache[i] == LinkOf(ref, i)
  }

  /** The links already followed, all but the last one through a stored header. */
  ghost predicate IsWalk(cache: seq<Hash>, ref: Header, stored: set<Hash>)
    requires Linked(ref)
  {
    0 < |cache| <= ref.number + 1 && AreLinks(cache, ref) && PathStored(ref, stored, |cache| - 1)
  }

  lemma LinksExtend(cache: seq<Hash>, ref: Header, x: Hash, n: nat)
    requires Linked(ref) && n == |cache| <= ref.number && AreLinks(cache, ref) && x == LinkOf(ref, n)
    ensures AreLinks(cache + [x], ref)
  {
    var more := cache + [x];
    forall i | 0 <= i < |more| ensures more[i] == LinkOf(ref, i) {
      assert i < n ==> more[i] == cache[i];
      assert i >= n ==> i == n && more[i] == x;
    }
  }

  lemma PathExtends(ref: Header, stored: set<Hash>, k: nat, next: nat)
    requires Linked(ref) && k < ref.number && PathStored(ref, stored, k) && LinkOf(ref, k) in stored && next == k + 1
    ensures PathStored(ref, stored, next)
  {
    forall i: nat | i < next ensures LinkOf(ref, i) in stored {
      assert i < k || i == k;
    }
  }

  lemma ParentLink(ref: Header, i: nat)
    requires Linked(ref) && i < ref.number
    ensures LinkOf(ref, i).header.parentHash == LinkOf(ref, i + 1) && LinkOf(ref, i).header.number == ref.number - 1 - i
  {
    if i + 1 < ref.number {
      AncestorParent(ref, ref.number - 1 - i);
    } else {
      assert Linked(AncestorAt(ref, 0));
    }
  }

  lemma FirstLink(ref: Header, stored: set<Hash>)
    requires Linked(ref)
    ensures IsWalk([ref.parentHash], ref, stored)
  {
    if ref.number > 0 {
      assert AncestorAt(ref, ref.number - 1) == ref.parentHash.header;
    }
  }

  /** One more link, through a stored header. */
  lemma WalkExtends(cache: seq<Hash>, ref: Header, stored: set<Hash>, h: Header, last: nat, next: nat)
    requires Linked(ref) && IsWalk(cache, ref, stored) && next == last + 1 == |cache| <= ref.number
    requires cache[last] == Digest(h) && Digest(h) in stored && h.parentHash == LinkOf(ref, next)
    ensures IsWalk(cache + [h.parentHash], ref, stored)
  {
    var more := cache + [h.parentHash];
    assert |more| - 1 == next;
    assert PathStored(ref, stored, last) && LinkOf(ref, last) in stored;
    PathExtends(ref, stored, last, next);
    LinksExtend(cache, ref, h.parentHash, next);
  }

  lemma NextLink(ref: Header, k: nat, h: Header, next: nat)
    requires Linked(ref) && k < ref.number && LinkOf(ref, k) == Digest(h) && next == k + 1
    ensures h.parentHash == LinkOf(ref, next)
  {
    ParentLink(ref, k);
  }

  /** A query answered from the links already followed. */
  lemma CachedIsRight(cache: seq<Hash>, ref: Header, stored: set<Hash>, n: nat, i: nat)
    requires Linked(ref) && IsWalk(cache, ref, stored) && n < TWO_TO_64 && ref.number < TWO_TO_64
    requires i == Wrap(ref.number - n - 1) < |cache|
    ensures cache[i] == HashAt(ref, stored, n)
  {
    assert cache[i] == LinkOf(ref, i);
    if n < ref.number {
      assert i == ref.number - 1 - n <= |cache| - 1;
      assert PathStored(ref, stored, i);
    } else {
      assert i >= ref.number;
    }
  }

  /** A query that the walk cannot reach. */
  lemma DeadEnd(cache: seq<Hash>, ref: Header, stored: set<Hash>, n: nat)
    requires Linked(ref) && IsWalk(cache, ref, stored) && n < TWO_TO_64 && ref.number < TWO_TO_64
    requires Wrap(ref.number - n - 1) >= |cache|
    requires GetHeader(stored, cache[|cache| - 1], Wrap(ref.number - |cache|)).None?
    ensures HashAt(ref, stored, n) == NoHash
  {
    if n < ref.number {
      ParentLink(ref, |cache| - 1);
    }
  }

  /** The closure: `ref` is the block being executed, `stored` what the chain can look up. */
  class HashLookup {
    const ref: Header
    const stored: set<Hash>
    var cache: seq<Hash>

    ghost predicate Valid()
      reads this
    {
      Linked(ref) && ref.number < TWO_TO_64 && (cache != [] ==> IsWalk(cache, ref, stored))
    }

    constructor (ref: Header, stored: set<Hash>)
      requires Linked(ref) && ref.number < TWO_TO_64
      ensures Valid() && this.ref == ref && this.stored == stored
    {
      this.ref, this.stored, cache := ref, stored, [];
    }

    /** Whatever was asked before, the answer is the hash at that height. */
    method GetHash(n: nat) returns (hash: Hash)
      requires Valid() && n < TWO_TO_64
      modifies this`cache
      ensures Valid() && hash == HashAt(ref, stored, n)
    {
      if cache == [] {
        FirstLink(ref, stored);
        cache := [ref.parentHash];
      }
      var idx := Wrap(ref.number - n - 1);
      if idx < |cache| {
        CachedIsRight(cache, ref, stored, n, idx);
        return cache[idx];
      }
      var lastKnownHash, lastKnownNumber := cache[|cache| - 1], Wrap(ref.number - |cache|);
      while true
        invariant IsWalk(cache, ref, stored) && Wrap(ref.number - n - 1) >= |cache|
        invariant lastKnownHash == cache[|cache| - 1] && lastKnownNumber == Wrap(ref.number - |cache|)
        decreases ref.number + 1 - |cache|
      {
        var header := GetHeader(stored, lastKnownHash, lastKnownNumber);
        if header.None? {
          DeadEnd(cache, ref, stored, n);
          return NoHash;
        }
        NotPastGenesis(cache, ref, stored);
        NextLink(ref, |cache| - 1, header.value, |cache|);
        WalkExtends(cache, ref, stored, header.value, |cache| - 1, |cache|);
        cache := cache + [header.value.parentHash];
        lastKnownHash, lastKnownNumber := header.value.parentHash, Wrap(header.value.number - 1);
        NextNumber(ref.number, |cache|, n);
        if n == lastKnownNumber {
          CachedIsRight(cache, ref, stored, n, |cache| - 1);
          return lastKnownHash;
        }
      }
      assert false;
    }
  }

  /** The link behind genesis leads nowhere. */
  lemma NotPastGenesis(cache: seq<Hash>, ref: Header, stored: set<Hash>)
    requires Linked(ref) && IsWalk(cache, ref, stored) && ref.number < TWO_TO_64
    requires GetHeader(stored, cache[|cache| - 1], Wrap(ref.number - |cache|)).Some?
    ensures |cache| <= ref.number && Wrap(ref.number - |cache|) == ref.number - |cache|
  {
  }

  /** The number reached after following `len` links is the one sought exactly if the last link is its answer. */
  lemma NextNumber(number: nat, len: nat, n: nat)
    requires number < TWO_TO_64 && n < TWO_TO_64 && 0 < len <= number + 1 && Wrap(number - n - 1) >= len - 1
    ensures n == Wrap(number - len) <==> Wrap(number - n - 1) == len - 1
  {
  }
}
