/** The header chain: header and total-difficulty tables, the canonical number-to-hash index and
    the head markers, updated in place by header imports and rewinds.

    Database batches are modelled as working copies that are assigned to the tables when the
    batch is written; reads before that see the tables.  The in-memory caches are not modelled.
 */
module HeaderChainModel {
  import opened Options
  import opened ChainTree

  datatype WriteStatus = NonStat | CanonStat | SideStat

  datatype WriteResult =
    | Written(status: WriteStatus, ignored: nat, imported: nat)
    | UnknownAncestor
    | Aborted

  /** The tables hold the same headers, each under its own hash, with its path sum as difficulty. */
  ghost predicate Tables(headers: map<Hash, Header>, td: map<Hash, nat>, genesis: Header) {
    && Rooted(headers.Keys, genesis)
    && Rows(headers, td)
  }

  ghost predicate Rows(headers: map<Hash, Header>, td: map<Hash, nat>) {
    td.Keys == headers.Keys && forall k {:trigger Row(k, headers, td)} | k in headers :: Row(k, headers, td)
  }

  ghost predicate Row(k: Hash, headers: map<Hash, Header>, td: map<Hash, nat>)
    requires k in headers && k in td
  {
    k == Digest(headers[k]) && Linked(headers[k]) && td[k] == TotalDifficulty(headers[k])
  }

  lemma AddRow(hs: map<Hash, Header>, ds: map<Hash, nat>, h: Header)
    requires Rows(hs, ds) && Linked(h)
    ensures Rows(hs[Digest(h) := h], ds[Digest(h) := TotalDifficulty(h)])
    ensures hs[Digest(h) := h].Keys == hs.Keys + {Digest(h)}
  {
    var hs', ds' := hs[Digest(h) := h], ds[Digest(h) := TotalDifficulty(h)];
    forall k | k in hs' ensures Row(k, hs', ds') {
      assert k != Digest(h) ==> Row(k, hs, ds);
    }
  }

  /** One step of staging: the next header of a batch is linked, adds its difficulty to the path sum,
      and is unknown once any earlier header of the batch was. */
  lemma StageStep(stored: set<Hash>, genesis: Header, batch: seq<Header>, i: nat)
    requires Rooted(stored, genesis) && Contiguous(batch) && i < |batch| && batch[0].parentHash in stored
    ensures Linked(batch[i]) && batch[i].parentHash.Digest? && Linked(batch[i].parentHash.header)
    ensures i > 0 ==> batch[i].parentHash.header == batch[i - 1]
    ensures TotalDifficulty(batch[i]) == batch[i].difficulty + TotalDifficulty(batch[i].parentHash.header)
    ensures i < |batch| - 1 ==> batch[i + 1].parentHash == Digest(batch[i])
    ensures Digest(batch[i]) in stored ==> forall j | 0 <= j < i :: Digest(batch[j]) in stored
  {
    BatchLinked(stored, genesis, batch, i);
    assert i < |batch| - 1 ==> LinkAt(batch, i + 1);
    if Digest(batch[i]) in stored {
      forall j | 0 <= j < i ensures Digest(batch[j]) in stored {
        KnownPrefix(stored, genesis, batch, j, i);
      }
    }
  }

  /** All entries of `batch` are known and its tip, not the head, is preferred: nothing is inserted,
      yet the head moves. */
  ghost predicate StaleReorg(t: Tree, genesis: Header, batch: seq<Header>, coin: bool)
    requires TreeOk(t, genesis) && Contiguous(batch)
  {
    && batch != [] && batch[0].parentHash in t.stored
    && var last := batch[|batch| - 1];
       && Digest(last) in t.stored && last != t.head
       && (assert InTree(Digest(last), t.stored, genesis) && InTree(Digest(t.head), t.stored, genesis);
           Prefers(last, t.head, coin))
  }

  /** No import of the run moves the head without inserting anything. */
  ghost predicate NeverStale(t: Tree, genesis: Header, run: seq<Import>)
    requires TreeOk(t, genesis) && Linked(t.head) && Heaviest(t, genesis)
    requires forall i | 0 <= i < |run| :: Contiguous(run[i].batch)
    decreases |run|
  {
    run == [] || (
      && !StaleReorg(t, genesis, run[0].batch, run[0].coin)
      && (InsertKeepsHeaviest(t, genesis, run[0].batch, run[0].coin);
          NeverStale(Insert(t, genesis, run[0].batch, run[0].coin), genesis, run[1..])))
  }

  class HeaderChain {
    const genesis: Header
    var headers: map<Hash, Header>
    var td: map<Hash, nat>
    var canonical: map<nat, Hash>
    var current: Header
    var currentHash: Hash
    var headMarker: Hash

    ghost function Abs(): Tree
      reads this
    {
      Tree(headers.Keys, current)
    }

    ghost predicate StoreValid()
      reads this
    {
      && Tables(headers, td, genesis)
      && currentHash == Digest(current)
      && currentHash in headers
    }

    ghost predicate Valid()
      reads this
      ensures Valid() ==> Linked(current)
    {
      && StoreValid()
      && TreeOk(Abs(), genesis)
      && (assert Row(currentHash, headers, td); canonical == CanonicalOf(current))
      && headMarker == currentHash
    }

    constructor (g: Header)
      requires g.parentHash == NoHash && g.number == 0
      ensures Valid() && genesis == g && Abs() == Tree({Digest(g)}, g)
    {
      genesis := g;
      headers := map[Digest(g) := g];
      td := map[Digest(g) := g.difficulty];
      canonical := map[0 := Digest(g)];
      current := g;
      currentHash := Digest(g);
      headMarker := Digest(g);
    }

    function GetHeader(hash: Hash, number: nat): (r: Option<Header>)
      reads this
    {
      if hash in headers && headers[hash].number == number then Some(headers[hash]) else None
    }

    function ReadCanonical(n: nat): (r: Hash)
      reads this
    {
      if n in canonical then canonical[n] else NoHash
    }

    /** First half of an import: what is written to the header and difficulty tables. */
    method StageHeaders(batch: seq<Header>) returns (hs: map<Hash, Header>, ds: map<Hash, nat>, newTD: nat, first: int)
      requires Tables(headers, td, genesis) && Contiguous(batch) && batch != [] && batch[0].parentHash in headers
      ensures -1 <= first < |batch|
      ensures hs.Keys == headers.Keys + HashesOf(batch, |batch|) && Tables(hs, ds, genesis)
      ensures Linked(batch[|batch| - 1]) && newTD == TotalDifficulty(batch[|batch| - 1])
      ensures forall i | 0 <= i < |batch| :: Digest(batch[i]) in headers <==> first == -1 || i < first
    {
      hs, ds := headers, td;
      newTD := td[batch[0].parentHash];
      first := -1;
      var parentKnown := true;
      assert Row(batch[0].parentHash, headers, td);
      for i := 0 to |batch|
        invariant -1 <= first < i || first == -1
        invariant hs.Keys == headers.Keys + HashesOf(batch, i)
        invariant Rows(hs, ds)
        invariant i == 0 ==> Linked(batch[0].parentHash.header) && newTD == TotalDifficulty(batch[0].parentHash.header)
        invariant i > 0 ==> Linked(batch[i - 1]) && newTD == TotalDifficulty(batch[i - 1])
        invariant forall j | 0 <= j < i :: Digest(batch[j]) in headers <==> first == -1 || j < first
        invariant parentKnown == (first == -1)
      {
        StageStep(headers.Keys, genesis, batch, i);
        var hash := if i < |batch| - 1 then batch[i + 1].parentHash else Digest(batch[i]);
        newTD := newTD + batch[i].difficulty;
        var alreadyKnown := parentKnown && hash in headers;
        if !alreadyKnown {
          AddRow(hs, ds, batch[i]);
          ds := ds[hash := newTD];
          hs := hs[hash := batch[i]];
          if first < 0 {
            first := i;
          }
        }
        parentKnown := alreadyKnown;
      }
      InsertRooted(Tree(headers.Keys, current), genesis, batch);
    }

    /** Deletes the index entries above `top`, counting upwards until an entry is missing. */
    method ClearAbove(top: nat) returns (marks: map<nat, Hash>)
      requires Linked(current) && canonical == CanonicalOf(current)
      ensures marks == map n | n in canonical && n <= top :: canonical[n]
    {
      marks := canonical;
      var i := top + 1;
      while ReadCanonical(i) != NoHash
        invariant top < i
        invariant marks == map n | n in canonical && (n <= top || i <= n) :: canonical[n]
        decreases current.number + 1 - i
      {
        marks := marks - {i};
        i := i + 1;
      }
    }

    /** Overwrites stale entries going backwards from the stored header `(hash, number)` until the
        index already agrees.  The header lookup never fails on the way. */
    method WriteBack(hash: Hash, number: nat, base: map<nat, Hash>) returns (marks: map<nat, Hash>)
      requires Tables(headers, td, genesis) && currentHash in headers && currentHash == Digest(current)
      requires Linked(current) && canonical == CanonicalOf(current)
      requires hash in headers && hash.Digest? && number == hash.header.number
      requires forall n: nat | n <= number :: (n in base <==> n in canonical) && (n in base ==> base[n] == canonical[n])
      ensures Linked(hash.header)
      ensures forall n: nat | n <= number :: n in marks && marks[n] == Digest(AncestorAt(hash.header, n))
      ensures forall n: nat | n > number :: (n in marks <==> n in base) && (n in marks ==> marks[n] == base[n])
    {
      assert Row(hash, headers, td);
      ghost var top := hash.header;
      marks := base;
      var headHash, headNumber := hash, number;
      var headHeader := GetHeader(headHash, headNumber);
      while ReadCanonical(headNumber) != headHash
        invariant 0 <= headNumber <= number && headHash == Digest(AncestorAt(top, headNumber))
        invariant headHash in headers && headHeader == Some(AncestorAt(top, headNumber))
        invariant forall n: nat | n <= headNumber :: (n in marks <==> n in canonical) && (n in marks ==> marks[n] == canonical[n])
        invariant forall n: nat | headNumber < n <= number :: n in marks && marks[n] == Digest(AncestorAt(top, n))
        invariant forall n: nat | n > number :: (n in marks <==> n in base) && (n in marks ==> marks[n] == base[n])
        decreases headNumber
      {
        assert headNumber > 0 by { GenesisIsCanonical(headers.Keys, genesis, current, top); }
        AncestorParent(top, headNumber);
        marks := marks[headNumber := headHash];
        headHash := headHeader.value.parentHash;
        headNumber := headHeader.value.number - 1;
        AncestorsStored(headers.Keys, genesis, top, headNumber);
        assert Row(headHash, headers, td);
        headHeader := GetHeader(headHash, headNumber);
      }
      SharedBelow(current, top, headNumber);
    }

    /** The index on which a batch is written: its parent's ancestry below, what is left of the old index above. */
    method BaseIndex(batch: seq<Header>, bottom: nat, top: nat) returns (marks: map<nat, Hash>)
      requires Valid() && batch != [] && batch[0].parentHash in headers && batch[0].parentHash.Digest?
      requires bottom == batch[0].number == batch[0].parentHash.header.number + 1 && bottom <= top
      ensures Linked(batch[0].parentHash.header)
      ensures forall n: nat | n < bottom :: n in marks && marks[n] == Digest(AncestorAt(batch[0].parentHash.header, n))
      ensures forall n: nat | n >= bottom ::
                (n in marks <==> n in canonical && n <= top) && (n in marks ==> marks[n] == canonical[n])
    {
      var parentHash := batch[0].parentHash;
      assert Row(parentHash, headers, td);
      marks := canonical;
      if parentHash != currentHash {
        marks := ClearAbove(top);
        marks := WriteBack(parentHash, bottom - 1, marks);
      }
    }

    /** Second half of an import that moves the head: the canonical index rewritten for the batch. */
    method Reindex(batch: seq<Header>, first: int) returns (marks: map<nat, Hash>, marker: Hash)
      requires Valid() && Contiguous(batch) && batch != [] && batch[0].parentHash in headers
      requires -1 <= first < |batch|
      requires forall i | 0 <= i < |batch| :: Digest(batch[i]) in headers <==> first == -1 || i < first
      ensures Linked(batch[|batch| - 1]) && batch[0].number <= batch[|batch| - 1].number
      ensures first >= 0 ==> marks == CanonicalOf(batch[|batch| - 1]) && marker == Digest(batch[|batch| - 1])
      ensures first < 0 ==> marker == headMarker
      ensures first < 0 ==> forall n: nat | n < batch[0].number ::
                n in marks && marks[n] == Digest(AncestorAt(batch[|batch| - 1], n))
      ensures first < 0 ==> forall n: nat | n >= batch[0].number ::
                (n in marks <==> n in canonical && n <= batch[|batch| - 1].number) && (n in marks ==> marks[n] == canonical[n])
    {
      BatchLinked(headers.Keys, genesis, batch, 0);
      BatchLinked(headers.Keys, genesis, batch, |batch| - 1);
      marks := BaseIndex(batch, batch[0].number, batch[|batch| - 1].number);
      marker := headMarker;
      BaseAncestry(headers.Keys, genesis, batch, marks);
      if first >= 0 {
        var from := if batch[0].parentHash != currentHash then 0 else first;
        assert Digest(batch[0]) in headers ==> !IsChild(Digest(batch[0]), current);
        marks, marker := WriteBatch(batch, from, marks, batch[0].number);
      }
    }

    /** Enters a batch into the index, header by header. */
    method WriteBatch(batch: seq<Header>, from: int, base: map<nat, Hash>, ghost bottom: nat)
      returns (marks: map<nat, Hash>, marker: Hash)
      requires Rooted(headers.Keys, genesis) && Contiguous(batch) && batch != [] && batch[0].parentHash in headers
      requires from == 0 < bottom == batch[0].number && Linked(batch[|batch| - 1])
      requires bottom <= batch[|batch| - 1].number
      requires forall n: nat | n < bottom :: n in base && base[n] == Digest(AncestorAt(batch[|batch| - 1], n))
      requires forall n: nat | n > batch[|batch| - 1].number :: n !in base
      ensures marks == CanonicalOf(batch[|batch| - 1]) && marker == Digest(batch[|batch| - 1])
    {
      marks, marker := base, NoHash;
      for i := from to |batch|
        invariant i > 0 ==> Linked(batch[i - 1]) && batch[i - 1].number == bottom + i - 1
        invariant marks == if i == 0 then base else WriteIndex(base, batch[i - 1], bottom - 1)
        invariant i > 0 ==> marker == Digest(batch[i - 1])
      {
        BatchLinked(headers.Keys, genesis, batch, i);
        marks := marks[batch[i].number := Digest(batch[i])];
        marker := Digest(batch[i]);
      }
      WriteIndexIsCanonical(base, batch[|batch| - 1], bottom - 1);
    }

    /** Whether the batch's tip is preferred, and the index and marker that go with the outcome. */
    method ChooseIndex(batch: seq<Header>, newTD: nat, first: int, coin: bool)
      returns (reorg: bool, marks: map<nat, Hash>, marker: Hash)
      requires Valid() && Contiguous(batch) && batch != [] && batch[0].parentHash in headers && -1 <= first < |batch|
      requires Linked(batch[|batch| - 1]) && newTD == TotalDifficulty(batch[|batch| - 1])
      requires forall i | 0 <= i < |batch| :: Digest(batch[i]) in headers <==> first == -1 || i < first
      ensures reorg == Prefers(batch[|batch| - 1], current, coin)
      ensures var t' := Insert(Abs(), genesis, batch, coin);
              && t'.head == (if reorg then batch[|batch| - 1] else current) && Linked(t'.head)
              && if StaleReorg(Abs(), genesis, batch, coin) then marks != CanonicalOf(t'.head)
                 else marks == CanonicalOf(t'.head) && marker == Digest(t'.head) && TreeOk(t', genesis)
    {
      ghost var t := Abs();
      var last := batch[|batch| - 1];
      assert Row(currentHash, headers, td);
      var localTD := td[currentHash];
      reorg := newTD > localTD ||
        (newTD == localTD && (last.number < current.number || (last.number == current.number && coin)));
      marks, marker := canonical, headMarker;
      if reorg {
        marks, marker := Reindex(batch, first);
      }
      BatchLinked(t.stored, genesis, batch, |batch| - 1);
      ImportOutcome(t, genesis, batch, coin, canonical, marks, first);
    }

    /** Writes the staged tables and moves head, markers and index if the batch's tip is preferred. */
    method CommitImport(batch: seq<Header>, hs: map<Hash, Header>, ds: map<Hash, nat>, newTD: nat, first: int,
                        coin: bool)
      returns (reorg: bool)
      requires Valid() && Contiguous(batch) && batch != [] && batch[0].parentHash in headers
      requires -1 <= first < |batch|
      requires hs.Keys == headers.Keys + HashesOf(batch, |batch|) && Tables(hs, ds, genesis)
      requires Linked(batch[|batch| - 1]) && newTD == TotalDifficulty(batch[|batch| - 1])
      requires forall i | 0 <= i < |batch| :: Digest(batch[i]) in headers <==> first == -1 || i < first
      modifies this
      ensures headers == hs && td == ds && currentHash == Digest(current)
      ensures reorg == Prefers(batch[|batch| - 1], old(current), coin)
      ensures current == if reorg then batch[|batch| - 1] else old(current)
      ensures Valid() <==> !StaleReorg(old(Abs()), genesis, batch, coin)
    {
      ghost var t' := Insert(Abs(), genesis, batch, coin);
      HashesOfHas(batch, |batch|, |batch| - 1);
      var marks, marker;
      reorg, marks, marker := ChooseIndex(batch, newTD, first, coin);
      if reorg {
        currentHash, current := Digest(batch[|batch| - 1]), batch[|batch| - 1];
      }
      canonical, headMarker, headers, td := marks, marker, hs, ds;
      assert Abs() == t';
    }

    /** Imports a contiguous batch.  The stored tree and the head always follow the reference fork
        choice; the index and markers follow the head in every case except a stale reorg. */
    method WriteHeaders(batch: seq<Header>, interrupted: bool, coin: bool) returns (r: WriteResult)
      requires Valid() && Contiguous(batch)
      modifies this
      ensures batch == [] ==> r == Written(NonStat, 0, 0)
      ensures r == UnknownAncestor <==> batch != [] && batch[0].parentHash !in old(headers)
      ensures r == Aborted <==> batch != [] && batch[0].parentHash in old(headers) && interrupted
      ensures batch == [] || !r.Written? ==> unchanged(this)
      ensures r.Written? ==> Abs() == Insert(old(Abs()), genesis, batch, coin) && StoreValid()
      ensures r.Written? ==> r.ignored + r.imported == |batch|
      ensures r.Written? ==> forall i | 0 <= i < |batch| :: Digest(batch[i]) in old(headers) <==> i < r.ignored
      ensures r.Written? && batch != [] ==>
                r.status == if r.imported == 0 then NonStat else if current == batch[|batch| - 1] then CanonStat else SideStat
      ensures Valid() <==> !(r.Written? && StaleReorg(old(Abs()), genesis, batch, coin))
    {
      if batch == [] {
        return Written(NonStat, 0, 0);
      }
      if batch[0].parentHash !in td {
        return UnknownAncestor;
      }
      var hs, ds, newTD, first := StageHeaders(batch);
      if interrupted {
        return Aborted;
      }
      assert Row(currentHash, headers, td);
      HashesOfHas(batch, |batch|, |batch| - 1);
      var reorg := CommitImport(batch, hs, ds, newTD, first, coin);
      r := if first < 0 then Written(NonStat, |batch|, 0)
           else Written(if reorg then CanonStat else SideStat, first, |batch| - first);
    }

    /** Over any run of imports none of which is a stale reorg, the head is a heaviest stored header and the
        index is exactly its ancestry. */
    method ImportRun(run: seq<Import>)
      requires Valid() && Heaviest(Abs(), genesis) && forall i | 0 <= i < |run| :: Contiguous(run[i].batch)
      requires NeverStale(Abs(), genesis, run)
      modifies this
      ensures Valid() && Heaviest(Abs(), genesis) && Abs() == InsertAll(old(Abs()), genesis, run)
    {
      ghost var t := Abs();
      for i := 0 to |run|
        invariant Valid() && Heaviest(Abs(), genesis) && NeverStale(Abs(), genesis, run[i..])
        invariant InsertAll(t, genesis, run) == InsertAll(Abs(), genesis, run[i..])
      {
        assert run[i..][0] == run[i] && run[i..][1..] == run[i + 1..];
        InsertKeepsHeaviest(Abs(), genesis, run[i].batch, run[i].coin);
        var _ := WriteHeaders(run[i].batch, false, run[i].coin);
      }
    }

    /** The ancestor `ancestor` generations above `(hash, number)`, jumping along the index once a
        canonical header is met; at most `budget` headers are visited one by one before that.
        An unknown header gives the empty answer, except that the zero hash above the head
        matches the missing index entry and is taken for a canonical hash. */
    method GetAncestor(hash: Hash, number: nat, ancestor: nat, budget: nat) returns (h: Hash, n: nat, left: nat)
      requires Valid()
      ensures ancestor > number ==> h == NoHash && n == 0
      ensures ancestor == 0 ==> h == hash && n == number
      ensures 0 < ancestor <= number && GetHeader(hash, number).None? ==>
                if ancestor > 1 && hash == NoHash && number > current.number
                then n == number - ancestor && h == ReadCanonical(n)
                else h == NoHash && n == 0
      ensures 0 < ancestor <= number && GetHeader(hash, number).Some? ==>
                var top := GetHeader(hash, number).value;
                top.number == number && SameRoot(top, current) &&
                var walked := if ancestor == 1 then 0 else Min(ancestor, StepsToChain(top, current));
                if walked <= budget
                then h == Digest(AncestorAt(top, number - ancestor)) && n == number - ancestor && left == budget - walked
                else h == NoHash && n == 0 && left == 0
    {
      left := budget;
      if ancestor > number {
        return NoHash, 0, left;
      }
      var header := GetHeader(hash, number);
      if header.Some? {
        assert Row(hash, headers, td);
        OneRoot(headers.Keys, genesis, header.value, current);
      }
      if ancestor == 1 {
        if header.Some? {
          return header.value.parentHash, number - 1, left;
        }
        return NoHash, 0, left;
      }
      h, n, left := WalkAncestors(hash, number, ancestor, budget);
    }

    /** The loop of `GetAncestor`. */
    method WalkAncestors(hash: Hash, number: nat, ancestor: nat, budget: nat) returns (h: Hash, n: nat, left: nat)
      requires Tables(headers, td, genesis) && Digest(current) in headers
      requires Linked(current) && canonical == CanonicalOf(current)
      requires ancestor <= number
      ensures ancestor == 0 ==> h == hash && n == number
      ensures GetHeader(hash, number).None? && ancestor > 0 ==>
                if hash == NoHash && number > current.number
                then n == number - ancestor && h == ReadCanonical(n)
                else h == NoHash && n == 0
      ensures GetHeader(hash, number).Some? ==>
                var top := GetHeader(hash, number).value;
                top.number == number && SameRoot(top, current) &&
                var walked := Min(ancestor, StepsToChain(top, current));
                if walked <= budget
                then h == Digest(AncestorAt(top, number - ancestor)) && n == number - ancestor && left == budget - walked
                else h == NoHash && n == 0 && left == 0
    {
      ghost var known := GetHeader(hash, number).Some?;
      ghost var top := if known then GetHeader(hash, number).value else current;
      assert known ==> Row(hash, headers, td);
      OneRoot(headers.Keys, genesis, top, current);
      h, n, left := hash, number, budget;
      var k := ancestor;
      while k != 0
        invariant 0 <= k <= n && number - n == ancestor - k == budget - left
        invariant !known ==> k == ancestor && h == hash
        invariant known ==> h == Digest(AncestorAt(top, n)) && SameRoot(h.header, current)
        invariant known ==> StepsToChain(top, current) == number - n + StepsToChain(h.header, current)
        decreases k
      {
        if ReadCanonical(n) == h {
          if known {
            SharedBelow(current, top, n);
          } else if n in canonical {
            CanonicalKnown(headers, td, genesis, current, n);
          }
          return ReadCanonical(n - k), n - k, left;
        }
        if left == 0 {
          return NoHash, 0, left;
        }
        left := left - 1;
        k := k - 1;
        if known {
          AncestorsStored(headers.Keys, genesis, top, n);
          assert Row(h, headers, td);
          AncestorParent(top, n);
          AncestorOfAncestor(top, n - 1, 0);
        }
        var header := GetHeader(h, n);
        if header.None? {
          return NoHash, 0, left;
        }
        h := header.value.parentHash;
        n := n - 1;
      }
    }

    function AllHashes(n: nat): (s: set<Hash>)
      reads this
    {
      AtHeight(headers, n)
    }

    /** The heights wiped in the first round of a rewind from height `num`: every populated height
        above it, highest first, then `num` itself. */
    method HeightsFrom(num: nat) returns (nums: seq<nat>)
      requires Tables(headers, td, genesis)
      ensures nums != [] && nums[|nums| - 1] == num
      ensures forall k <- headers :: headers[k].number >= num <==> headers[k].number in nums
      ensures forall i | 0 <= i < |nums| :: nums[i] == num || (nums[i] > num && AllHashes(nums[i]) != {})
    {
      nums := [];
      var n := num + 1;
      while AllHashes(n) != {}
        invariant n == num + 1 + |nums|
        invariant forall i | 0 <= i < |nums| :: nums[i] == n - 1 - i && AllHashes(nums[i]) != {}
        decreases AtOrAbove(headers, n)
      {
        ghost var k :| k in AllHashes(n);
        assert k in AtOrAbove(headers, n) && k !in AtOrAbove(headers, n + 1);
        nums := [n] + nums;
        n := n + 1;
      }
      nums := nums + [num];
      forall k | k in headers && headers[k].number >= num ensures headers[k].number in nums {
        assert Row(k, headers, td);
        if headers[k].number >= n {
          NoGaps(headers, td, genesis, k, n);
        } else if headers[k].number > num {
          assert nums[n - 1 - headers[k].number] == headers[k].number;
        }
      }
    }

    /** Stages the deletion of every header and index entry at the given heights. */
    method WipeHeights(nums: seq<nat>, hdr: Header, hs0: map<Hash, Header>, ds0: map<Hash, nat>, ms0: map<nat, Hash>)
      returns (hs: map<Hash, Header>, ds: map<Hash, nat>, ms: map<nat, Hash>)
      requires forall i | 0 <= i < |nums| :: AllHashes(nums[i]) != {}
      ensures hs == map k | k in hs0 && !(k in headers && headers[k].number in nums) :: hs0[k]
      ensures ds == map k | k in ds0 && !(k in headers && headers[k].number in nums) :: ds0[k]
      ensures ms == map n | n in ms0 && n !in nums :: ms0[n]
    {
      hs, ds, ms := hs0, ds0, ms0;
      for i := 0 to |nums|
        invariant hs == map k | k in hs0 && !(k in headers && headers[k].number in nums[..i]) :: hs0[k]
        invariant ds == map k | k in ds0 && !(k in headers && headers[k].number in nums[..i]) :: ds0[k]
        invariant ms == map n | n in ms0 && n !in nums[..i] :: ms0[n]
      {
        var hashes := AllHashes(nums[i]);
        if hashes == {} {
          hashes := {Digest(hdr)};
        }
        hs, ds, ms := hs - hashes, ds - hashes, ms - {nums[i]};
        assert forall n :: n in nums[..i + 1] <==> n in nums[..i] || n == nums[i];
      }
      assert nums[..|nums|] == nums;
    }

    /** One round of deletions: the round at height `num` leaves exactly what lies below it. */
    method WipeRound(num: nat, origin: bool, hdr: Header, hs0: map<Hash, Header>, ds0: map<Hash, nat>,
                     ms0: map<nat, Hash>)
      returns (hs: map<Hash, Header>, ds: map<Hash, nat>, ms: map<nat, Hash>)
      requires Tables(headers, td, genesis) && 0 < num
      requires Digest(hdr) in headers && hdr.number == num
      requires hs0 == if origin then headers else HeadersUpTo(headers, num)
      requires ds0 == if origin then td else TdUpTo(headers, td, num)
      requires ms0 == if origin then canonical else IndexUpTo(canonical, num)
      requires origin ==> forall n: nat | n in canonical :: n <= num
      ensures hs == HeadersUpTo(headers, num - 1)
      ensures ds == TdUpTo(headers, td, num - 1)
      ensures ms == IndexUpTo(canonical, num - 1)
    {
      var nums := [num];
      if origin {
        nums := HeightsFrom(num);
      }
      assert Row(Digest(hdr), headers, td);
      assert Digest(hdr) in AllHashes(num);
      hs, ds, ms := WipeHeights(nums, hdr, hs0, ds0, ms0);
    }

    /** Rewinds to height `head`, or lower if the callback forces it: the head becomes the old head's
        ancestor there, and every fork above it is gone from all three tables. */
    method SetHead(head: nat, updateFn: Option<Header -> (nat, bool)>) returns (target: nat)
      requires Valid()
      modifies this
      ensures Valid()
      ensures old(current).number <= head ==>
                target == head && Abs() == old(Abs()) && headers == old(headers) && td == old(td) && canonical == old(canonical)
      ensures old(current).number > head ==>
                && target == RewindTarget(old(current), head, updateFn) && Abs() == Rewind(old(Abs()), target)
                && headers == HeadersUpTo(old(headers), target)
                && td == TdUpTo(old(headers), old(td), target)
                && canonical == IndexUpTo(old(canonical), target)
    {
      ghost var top := current;
      assert Row(currentHash, headers, td);
      var hs, ds, ms;
      target, hs, ds, ms := RewindLoop(head, updateFn);
      RewindOutcome(headers, td, genesis, top, current.number);
      headers, td, canonical := hs, ds, ms;
    }

    /** Moves the head back block by block, collecting the deletions to be written in the end. */
    method RewindLoop(head: nat, updateFn: Option<Header -> (nat, bool)>)
      returns (target: nat, hs: map<Hash, Header>, ds: map<Hash, nat>, ms: map<nat, Hash>)
      requires Valid()
      modifies this`current, this`currentHash, this`headMarker
      ensures currentHash == Digest(current) == headMarker
      ensures target == if old(current).number <= head then head else RewindTarget(old(current), head, updateFn)
      ensures old(current).number <= head ==> current == old(current) && hs == headers && ds == td && ms == canonical
      ensures old(current).number > head ==>
                && target < old(current).number && current == AncestorAt(old(current), target)
                && hs == HeadersUpTo(headers, target) && ds == TdUpTo(headers, td, target) && ms == IndexUpTo(canonical, target)
    {
      var origin := true;
      hs, ds, ms := headers, td, canonical;
      ghost var top := current;
      assert Row(currentHash, headers, td);
      target := head;
      while current.number > target
        invariant current.number <= top.number && current == AncestorAt(top, current.number)
        invariant currentHash == Digest(current) == headMarker
        invariant origin ==> current == top && target == head
        invariant !origin ==> target <= current.number < top.number && head < top.number
        invariant RewindTarget(top, head, updateFn) == RewindTarget(current, target, updateFn)
        invariant hs == if origin then headers else HeadersUpTo(headers, current.number)
        invariant ds == if origin then td else TdUpTo(headers, td, current.number)
        invariant ms == if origin then canonical else IndexUpTo(canonical, current.number)
        decreases current.number
      {
        var hdr, num := current, current.number;
        ParentStored(headers, td, genesis, top, num);
        var lookup := GetHeader(hdr.parentHash, num - 1);
        var parent := if lookup.None? then genesis else lookup.value;
        ghost var lowered := Lowered(target, parent, updateFn);
        if updateFn.Some? {
          var (newHead, force) := updateFn.value(parent);
          if force && newHead < target {
            target := newHead;
          }
        }
        assert target == lowered;
        hs, ds, ms := WipeRound(num, origin, hdr, hs, ds, ms);
        headMarker := Digest(parent);
        current := parent;
        currentHash := Digest(parent);
        origin := false;
      }
    }
  }

  function Min(a: nat, b: nat): nat {
    if a < b then a else b
  }

  /** The height a rewind from `h` towards `head` ends at: each step may force it lower. */
  ghost function RewindTarget(h: Header, head: nat, updateFn: Option<Header -> (nat, bool)>): (target: nat)
    requires Linked(h)
    ensures target <= head
    decreases h
  {
    if h.number <= head then head
    else
      var parent := h.parentHash.header;
      RewindTarget(parent, Lowered(head, parent, updateFn), updateFn)
  }

  ghost function HeadersUpTo(headers: map<Hash, Header>, n: nat): map<Hash, Header> {
    map k | k in headers && headers[k].number <= n :: headers[k]
  }

  ghost function TdUpTo(headers: map<Hash, Header>, td: map<Hash, nat>, n: nat): map<Hash, nat> {
    map k | k in td && k in headers && headers[k].number <= n :: td[k]
  }

  ghost function IndexUpTo(canonical: map<nat, Hash>, n: nat): map<nat, Hash> {
    map m | m in canonical && m <= n :: canonical[m]
  }

  /** What is left below a height is a well-formed store whose head is the ancestor at that height. */
  lemma RewindOutcome(headers: map<Hash, Header>, td: map<Hash, nat>, genesis: Header, top: Header, n: nat)
    requires Tables(headers, td, genesis) && TreeOk(Tree(headers.Keys, top), genesis) && Linked(top) && n <= top.number
    ensures var hs, ds, head := HeadersUpTo(headers, n), TdUpTo(headers, td, n), AncestorAt(top, n);
            && Tables(hs, ds, genesis)
            && Tree(hs.Keys, head) == Rewind(Tree(headers.Keys, top), n)
            && TreeOk(Tree(hs.Keys, head), genesis)
            && IndexUpTo(CanonicalOf(top), n) == CanonicalOf(head)
  {
    var hs, ds := HeadersUpTo(headers, n), TdUpTo(headers, td, n);
    RewindKeepsTree(Tree(headers.Keys, top), genesis, n);
    CanonicalCut(top, n);
    forall k | k in headers ensures k.Digest? && headers[k] == k.header {
      assert Row(k, headers, td);
    }
    assert hs.Keys == Rewind(Tree(headers.Keys, top), n).stored;
    forall k | k in hs ensures k in ds && Row(k, hs, ds) {
      assert Row(k, headers, td);
    }
  }

  function AtHeight(headers: map<Hash, Header>, n: nat): set<Hash> {
    set k | k in headers && headers[k].number == n
  }

  ghost function AtOrAbove(headers: map<Hash, Header>, n: nat): set<Hash> {
    set k | k in headers && headers[k].number >= n
  }

  /** Heights of an ancestor-closed store have no gaps. */
  lemma NoGaps(headers: map<Hash, Header>, td: map<Hash, nat>, genesis: Header, k: Hash, n: nat)
    requires Tables(headers, td, genesis) && k in headers && n <= headers[k].number
    ensures AtHeight(headers, n) != {}
  {
    assert Row(k, headers, td);
    AncestorsStored(headers.Keys, genesis, headers[k], n);
    var a := Digest(AncestorAt(headers[k], n));
    assert Row(a, headers, td);
    assert a in AtHeight(headers, n);
  }

  lemma ParentStored(headers: map<Hash, Header>, td: map<Hash, nat>, genesis: Header, top: Header, n: nat)
    requires Tables(headers, td, genesis) && Digest(top) in headers && Linked(top) && 0 < n <= top.number
    ensures var k := AncestorAt(top, n).parentHash;
            k in headers && headers[k] == AncestorAt(top, n - 1) && k == Digest(AncestorAt(top, n - 1))
    ensures var k := Digest(AncestorAt(top, n)); k in headers && headers[k] == AncestorAt(top, n)
  {
    AncestorParent(top, n);
    AncestorsStored(headers.Keys, genesis, top, n);
    AncestorsStored(headers.Keys, genesis, top, n - 1);
    assert Row(Digest(AncestorAt(top, n)), headers, td) && Row(Digest(AncestorAt(top, n - 1)), headers, td);
  }

  ghost function Lowered(head: nat, parent: Header, updateFn: Option<Header -> (nat, bool)>): nat {
    if updateFn.Some? && updateFn.value(parent).1 && updateFn.value(parent).0 < head then updateFn.value(parent).0 else head
  }

  ghost predicate SameRoot(a: Header, b: Header) {
    Linked(a) && Linked(b) && AncestorAt(a, 0) == AncestorAt(b, 0)
  }

  /** How many parent steps lead from `h` to the chain that ends in `head`. */
  ghost function StepsToChain(h: Header, head: Header): nat
    requires SameRoot(h, head)
    decreases h
  {
    if h.number <= head.number && AncestorAt(head, h.number) == h then 0
    else 1 + StepsToChain(h.parentHash.header, head)
  }

  lemma CanonicalKnown(headers: map<Hash, Header>, td: map<Hash, nat>, genesis: Header, head: Header, n: nat)
    requires Tables(headers, td, genesis) && Digest(head) in headers && Linked(head) && n <= head.number
    ensures var k := CanonicalOf(head)[n]; k in headers && headers[k].number == n
  {
    AncestorsStored(headers.Keys, genesis, head, n);
    assert Row(Digest(AncestorAt(head, n)), headers, td);
  }

  lemma OneRoot(stored: set<Hash>, genesis: Header, a: Header, b: Header)
    requires Rooted(stored, genesis) && Digest(a) in stored && Digest(b) in stored && Linked(a) && Linked(b)
    ensures SameRoot(a, b)
  {
    AncestorsStored(stored, genesis, a, 0);
    AncestorsStored(stored, genesis, b, 0);
  }

  /** Height zero of the index is the genesis hash, which every stored header descends from. */
  lemma GenesisIsCanonical(stored: set<Hash>, genesis: Header, current: Header, top: Header)
    requires Rooted(stored, genesis) && Digest(current) in stored && Digest(top) in stored
    requires Linked(current) && Linked(top)
    ensures CanonicalOf(current)[0] == Digest(AncestorAt(top, 0))
  {
    AncestorsStored(stored, genesis, current, 0);
    AncestorsStored(stored, genesis, top, 0);
  }

  /** Where two chains meet they agree on everything below. */
  lemma SharedBelow(a: Header, b: Header, m: nat)
    requires Linked(a) && Linked(b) && m <= a.number && m <= b.number
    requires AncestorAt(a, m) == AncestorAt(b, m)
    ensures forall n: nat | n <= m :: AncestorAt(a, n) == AncestorAt(b, n)
  {
    forall n: nat | n <= m ensures AncestorAt(a, n) == AncestorAt(b, n) {
      AncestorOfAncestor(a, m, n);
      AncestorOfAncestor(b, m, n);
    }
  }

  lemma BaseAncestry(stored: set<Hash>, genesis: Header, batch: seq<Header>, marks: map<nat, Hash>)
    requires Rooted(stored, genesis) && Contiguous(batch) && batch != [] && batch[0].parentHash in stored
    requires batch[0].parentHash.Digest? && Linked(batch[0].parentHash.header)
    requires batch[0].number == batch[0].parentHash.header.number + 1
    requires forall n: nat | n < batch[0].number :: n in marks && marks[n] == Digest(AncestorAt(batch[0].parentHash.header, n))
    ensures Linked(batch[|batch| - 1]) && batch[0].number <= batch[|batch| - 1].number
    ensures forall n: nat | n < batch[0].number :: marks[n] == Digest(AncestorAt(batch[|batch| - 1], n))
  {
    var last := batch[|batch| - 1];
    BatchLinked(stored, genesis, batch, |batch| - 1);
    BatchAncestor(stored, genesis, batch, 0, |batch| - 1);
    forall n: nat | n < batch[0].number ensures marks[n] == Digest(AncestorAt(last, n)) {
      AncestorOfAncestor(last, batch[0].number, n);
    }
  }

  /** Why the index is right exactly when the reorg is not stale: a fresh tip gets its whole ancestry
      indexed, while a known tip off the canonical chain is never written at its own height. */
  lemma ImportOutcome(t: Tree, genesis: Header, batch: seq<Header>, coin: bool,
                      canonical: map<nat, Hash>, marks: map<nat, Hash>, first: int)
    requires TreeOk(t, genesis) && Contiguous(batch) && batch != [] && batch[0].parentHash in t.stored
    requires Linked(t.head) && canonical == CanonicalOf(t.head)
    requires -1 <= first < |batch|
    requires forall i | 0 <= i < |batch| :: Digest(batch[i]) in t.stored <==> first == -1 || i < first
    requires var last := batch[|batch| - 1];
             Linked(last) && batch[0].number <= last.number &&
             if !Prefers(last, t.head, coin) then marks == canonical
             else if first >= 0 then marks == CanonicalOf(last)
             else
               && (forall n: nat | n < batch[0].number :: n in marks && marks[n] == Digest(AncestorAt(last, n)))
               && (forall n: nat | n >= batch[0].number ::
                    (n in marks <==> n in canonical && n <= last.number) && (n in marks ==> marks[n] == canonical[n]))
    ensures var t' := Insert(t, genesis, batch, coin);
            Linked(t'.head) &&
            if StaleReorg(t, genesis, batch, coin) then marks != CanonicalOf(t'.head)
            else marks == CanonicalOf(t'.head) && TreeOk(t', genesis)
  {
    var last := batch[|batch| - 1];
    var t' := Insert(t, genesis, batch, coin);
    if StaleReorg(t, genesis, batch, coin) {
      assert t'.head == last && Digest(last) in t.stored;
      if last.number <= t.head.number && AncestorAt(t.head, last.number) == last {
        AncestorLighter(t.stored, genesis, t.head, last.number);
      }
      assert last.number in CanonicalOf(last) && CanonicalOf(last)[last.number] == Digest(last);
    } else {
      InsertKeepsTree(t, genesis, batch, coin);
      if Prefers(last, t.head, coin) && first < 0 {
        assert last == t.head;
      }
    }
  }

  /** The height a rewind ends at is the lowest limit reported on the way down, or the requested one. */
  lemma {:induction false} RewindTargetIsLowest(h: Header, head: nat, updateFn: Option<Header -> (nat, bool)>)
    requires Linked(h) && h.number > head
    ensures var target := RewindTarget(h, head, updateFn);
            && (target == head || exists m: nat | target <= m < h.number :: Forces(h, m, target, updateFn))
            && forall m: nat, limit | target <= m < h.number && Forces(h, m, limit, updateFn) :: target <= limit
    decreases h
  {
    var parent := h.parentHash.header;
    var head' := Lowered(head, parent, updateFn);
    var target := RewindTarget(h, head, updateFn);
    assert AncestorAt(h, parent.number) == parent;
    if parent.number > head' {
      RewindTargetIsLowest(parent, head', updateFn);
      assert forall m: nat, limit | m < parent.number ::
          Forces(h, m, limit, updateFn) == Forces(parent, m, limit, updateFn);
    }
    if target == head' != head {
      assert Forces(h, parent.number, target, updateFn);
    }
  }

  ghost predicate Forces(h: Header, m: nat, limit: nat, updateFn: Option<Header -> (nat, bool)>)
    requires Linked(h) && m <= h.number
  {
    updateFn.Some? && updateFn.value(AncestorAt(h, m)) == (limit, true)
  }

  /** Re-importing a known fork of equal weight can win the coin: the head then moves onto a header
      that the index does not list. */
  lemma StaleReorgHappens(g: Header, a: Header, b: Header)
    requires g.parentHash == NoHash && g.number == 0
    requires Follows(g, a) && Follows(g, b) && a != b && a.difficulty == b.difficulty > 0
    ensures var start := Tree({Digest(g)}, g);
            var run := [Import([a], false), Import([b], false)];
            && TreeOk(start, g) && Heaviest(start, g)
            && Contiguous([a]) && Contiguous([b])
            && StaleReorg(InsertAll(start, g, run), g, [b], true)
  {
    var start := Tree({Digest(g)}, g);
    InsertKeepsHeaviest(start, g, [a], false);
    InsertOne(start, g, a, false);
    var mid := Tree({Digest(g), Digest(a)}, a);
    InsertKeepsHeaviest(mid, g, [b], false);
    InsertOne(mid, g, b, false);
    var end := Tree({Digest(g), Digest(a), Digest(b)}, a);
    InsertOne(end, g, b, true);
    TwoImports(start, g, Import([a], false), Import([b], false));
  }

  lemma InsertOne(t: Tree, g: Header, h: Header, coin: bool)
    requires TreeOk(t, g) && Contiguous([h]) && h.parentHash in t.stored
    ensures Linked(h) && Linked(t.head)
    ensures Insert(t, g, [h], coin) == Tree(t.stored + {Digest(h)}, if Prefers(h, t.head, coin) then h else t.head)
  {
    BatchLinked(t.stored, g, [h], 0);
    assert InTree(Digest(t.head), t.stored, g);
    assert HashesOf([h], 1) == HashesOf([h], 0) + {Digest(h)};
  }

  lemma TwoImports(t: Tree, g: Header, x: Import, y: Import)
    requires TreeOk(t, g) && Linked(t.head) && Heaviest(t, g) && Contiguous(x.batch) && Contiguous(y.batch)
    ensures var mid := Insert(t, g, x.batch, x.coin);
            TreeOk(mid, g) && InsertAll(t, g, [x, y]) == Insert(mid, g, y.batch, y.coin)
  {
    InsertKeepsHeaviest(t, g, x.batch, x.coin);
    var mid := Insert(t, g, x.batch, x.coin);
    InsertKeepsHeaviest(mid, g, y.batch, y.coin);
    assert [x, y][1..] == [y] && [y][1..] == [];
    assert InsertAll(mid, g, [y]) == Insert(mid, g, y.batch, y.coin);
  }
}
