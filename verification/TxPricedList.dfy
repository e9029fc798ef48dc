/** The price-ordered view of the pool's remote transactions: an urgent heap ordered by effective tip
    and a floating heap ordered by fee cap.  Entries of transactions that left the pool stay in the
    heaps until they surface.
 */
module TxPricedListModel {
  import opened Options
  import opened Transactions
  import opened Heap

  const SLOT_SIZE := 32 * 1024
  const URGENT_RATIO := 4
  const FLOATING_RATIO := 1

  function NumSlots(tx: Tx): nat {
    (tx.size + SLOT_SIZE - 1) / SLOT_SIZE
  }

  function EffectiveTip(tx: Tx, baseFee: int): int {
    if tx.tipCap < tx.feeCap - baseFee then tx.tipCap else tx.feeCap - baseFee
  }

  function Compare(a: int, b: int): int {
    if a < b then -1 else if a > b then 1 else 0
  }

  /** Effective tips first if a base fee is given, then fee caps, then tips. */
  function Cmp(baseFee: Option<int>, a: Tx, b: Tx): int {
    var tips := if baseFee.Some? then Compare(EffectiveTip(a, baseFee.value), EffectiveTip(b, baseFee.value)) else 0;
    if tips != 0 then tips
    else if a.feeCap != b.feeCap then Compare(a.feeCap, b.feeCap)
    else Compare(a.tipCap, b.tipCap)
  }

  /** Worse transactions first; among equals the higher nonce. */
  function Worse(baseFee: Option<int>): (Tx, Tx) -> bool {
    (a: Tx, b: Tx) => Cmp(baseFee, a, b) < 0 || (Cmp(baseFee, a, b) == 0 && a.nonce > b.nonce)
  }

  lemma WorseOrder(baseFee: Option<int>)
    ensures Order(Worse(baseFee))
  {
    forall a, b, c ensures OrderAt(Worse(baseFee), a, b, c) {
    }
  }

  ghost function Slots(s: seq<Tx>): nat {
    if s == [] then 0 else Slots(s[..|s| - 1]) + NumSlots(s[|s| - 1])
  }

  /** How many entries the two heaps hold for a transaction. */
  ghost function Entries(urgent: seq<Tx>, floating: seq<Tx>, tx: Tx): nat {
    multiset(urgent)[tx] + multiset(floating)[tx]
  }

  /** Every remote transaction has an entry in at least one heap. */
  ghost predicate Covers(urgent: seq<Tx>, floating: seq<Tx>, remotes: set<Tx>) {
    forall tx <- remotes :: tx in urgent || tx in floating
  }

  /** No remote transaction loses its last entry. */
  ghost predicate KeepsCover(u0: seq<Tx>, f0: seq<Tx>, u: seq<Tx>, f: seq<Tx>, remotes: set<Tx>) {
    forall tx <- remotes :: tx in u0 || tx in f0 ==> tx in u || tx in f
  }

  /** Live entries are neither lost nor made up: each is in a heap or in the drop list. */
  ghost predicate Conserved(remotes: set<Tx>, u0: seq<Tx>, f0: seq<Tx>, u: seq<Tx>, f: seq<Tx>, drop: seq<Tx>) {
    forall tx <- remotes :: ConservedFor(u0, f0, u, f, drop, tx)
  }

  ghost predicate ConservedFor(u0: seq<Tx>, f0: seq<Tx>, u: seq<Tx>, f: seq<Tx>, drop: seq<Tx>, tx: Tx) {
    Entries(u0, f0, tx) == Entries(u, f, tx) + multiset(drop)[tx]
  }

  lemma PopCount(less: (Tx, Tx) -> bool, s: seq<Tx>, tx: Tx)
    requires s != []
    ensures multiset(s)[tx] == multiset(PopRest(less, s))[tx] + if tx == s[0] then 1 else 0
  {
    RemoveAtPermutes(less, s, 0);
  }

  lemma PushCount(baseFee: Option<int>, s: seq<Tx>, x: Tx, tx: Tx)
    requires IsHeap(Worse(baseFee), s)
    ensures multiset(Push(Worse(baseFee), s, x))[tx] == multiset(s)[tx] + if tx == x then 1 else 0
  {
    WorseOrder(baseFee);
    PushKeepsHeap(Worse(baseFee), s, x);
  }

  lemma SnocCount(s: seq<Tx>, x: Tx, tx: Tx)
    ensures multiset(s + [x])[tx] == multiset(s)[tx] + if tx == x then 1 else 0
  {
  }

  lemma PutCovers(baseFee: Option<int>, urgent: seq<Tx>, tx: Tx)
    requires IsHeap(Worse(baseFee), urgent)
    ensures var u := Push(Worse(baseFee), urgent, tx); tx in u && forall x <- urgent :: x in u
  {
    var u := Push(Worse(baseFee), urgent, tx);
    forall x | x == tx || x in urgent ensures x in u {
      PushCount(baseFee, urgent, tx, x);
      assert multiset(u)[x] > 0;
    }
  }

  /** What the list holds, and how many entries it takes for stale. */
  datatype Heaps = Heaps(urgent: seq<Tx>, floating: seq<Tx>, stales: int)

  ghost function AfterPut(h: Heaps, baseFee: Option<int>, tx: Tx): Heaps {
    h.(urgent := Push(Worse(baseFee), h.urgent, tx))
  }

  class TxPricedList {
    var urgent: seq<Tx>
    var floating: seq<Tx>
    var baseFee: Option<int>
    var stales: int

    ghost function Held(): Heaps
      reads this
    {
      Heaps(urgent, floating, stales)
    }

    ghost predicate Valid()
      reads this
    {
      IsHeap(Worse(baseFee), urgent) && IsHeap(Worse(None), floating)
    }

    constructor ()
      ensures Valid() && Held() == Heaps([], [], 0) && baseFee == None
    {
      urgent, floating, baseFee, stales := [], [], None, 0;
    }

    method Put(tx: Tx, local: bool)
      requires Valid()
      modifies this`urgent
      ensures Valid() && urgent == if local then old(urgent) else Push(Worse(baseFee), old(urgent), tx)
    {
      if !local {
        WorseOrder(baseFee);
        PushKeepsHeap(Worse(baseFee), urgent, tx);
        urgent := Push(Worse(baseFee), urgent, tx);
      }
    }

    method PopUrgent() returns (tx: Tx)
      requires Valid() && urgent != []
      modifies this`urgent
      ensures Valid() && tx == old(urgent)[0] && urgent == PopRest(Worse(baseFee), old(urgent))
      ensures forall x <- old(urgent) :: !Worse(baseFee)(x, tx)
    {
      WorseOrder(baseFee);
      RemoveAtKeepsHeap(Worse(baseFee), urgent, 0);
      tx := urgent[0];
      forall i | 0 <= i < |urgent| ensures !Worse(baseFee)(urgent[i], tx) {
        RootIsLeast(Worse(baseFee), urgent, i);
      }
      urgent := PopRest(Worse(baseFee), urgent);
    }

    method PopFloating() returns (tx: Tx)
      requires Valid() && floating != []
      modifies this`floating
      ensures Valid() && tx == old(floating)[0] && floating == PopRest(Worse(None), old(floating))
      ensures NoneWorse(Worse(None), floating, [tx])
    {
      WorseOrder(None);
      RemoveAtKeepsHeap(Worse(None), floating, 0);
      RestNotWorse(None, floating);
      tx := floating[0];
      floating := PopRest(Worse(None), floating);
    }

    method PushFloating(tx: Tx)
      requires Valid()
      modifies this`floating
      ensures Valid() && floating == Push(Worse(None), old(floating), tx)
    {
      WorseOrder(None);
      PushKeepsHeap(Worse(None), floating, tx);
      floating := Push(Worse(None), floating, tx);
    }

    /** Collects the worst live transactions until their slots cover the request, which fails exactly if
        all live entries together do not.  While the urgent heap is the larger one by the ratio, its worst
        entry only moves to the floating heap; nothing left there is worse than the last one taken.  If the
        floating heap has nothing better than the urgent one to begin with, whatever is worse by both orders
        than something taken is taken as well, with all its entries. */
    method Discard(slots0: int, force: bool, remotes: set<Tx>) returns (drop: seq<Tx>, success: bool)
      requires Valid()
      modifies this`urgent, this`floating, this`stales
      ensures Valid() && forall tx <- drop :: tx in remotes
      ensures Conserved(remotes, old(urgent), old(floating), urgent, floating, drop)
      ensures success <==> force || slots0 <= LiveSlots(old(urgent), old(floating), remotes)
      ensures !success ==> drop == []
      ensures success && !force ==> Slots(drop) >= slots0
      ensures success ==> Slots(drop) >= slots0 || (urgent == [] && floating == [])
      ensures success && drop != [] ==> NoneWorse(Worse(None), floating, drop[|drop| - 1..])
      ensures Picks(baseFee, old(urgent), old(floating), remotes, slots0, drop)
    {
      drop := [];
      var slots := slots0;
      ghost var u0, f0 := urgent, floating;
      while slots > 0
        invariant Valid() && slots == slots0 - Slots(drop)
        invariant forall tx <- drop :: tx in remotes
        invariant Conserved(remotes, u0, f0, urgent, floating, drop)
        invariant slots <= 0 && drop != [] ==> NoneWorse(Worse(None), floating, drop[|drop| - 1..])
        invariant drop != [] ==> Slots(drop[..|drop| - 1]) < slots0
        invariant NoneWorse(Worse(baseFee), u0, f0) ==> Ordered(baseFee, urgent, floating, drop)
        decreases 2 * |urgent| + |floating|
      {
        ghost var u, f := urgent, floating;
        if |urgent| * FLOATING_RATIO > |floating| * URGENT_RATIO {
          OrderedPopUrgent(baseFee, u, f, drop);
          var tx := PopUrgent();
          if tx !in remotes {
            DropStale(remotes, u0, f0, u, f, drop, baseFee);
            stales := stales - 1;
            continue;
          }
          MoveToFloating(remotes, u0, f0, u, f, drop, baseFee);
          PushFloating(tx);
        } else {
          if floating == [] {
            break;
          }
          OrderedPopFloating(baseFee, u, f, drop);
          var tx := PopFloating();
          PopToDrop(remotes, u0, f0, u, f, drop);
          if tx !in remotes {
            stales := stales - 1;
            continue;
          }
          assert (drop + [tx])[..|drop|] == drop && (drop + [tx])[|drop|..] == [tx];
          drop := drop + [tx];
          slots := slots - NumSlots(tx);
        }
      }
      LiveConserved(remotes, u0, f0, urgent, floating, drop);
      OrderedPicks(baseFee, u0, f0, urgent, floating, remotes, slots0, drop);
      if slots > 0 && !force {
        PutBack(drop, remotes, u0, f0);
        return [], false;
      }
      success := true;
    }

    /** Rebuilds both heaps: every remote transaction once, the worst fifth of them, rounded down and by
        the urgent order, in the floating heap. */
    method Reheap(remotes: set<Tx>)
      modifies this`urgent, this`floating, this`stales
      ensures Valid() && Exact(urgent, floating, remotes) && stales == 0
      ensures |floating| == |remotes| / 5 && |urgent| + |floating| == |remotes|
      ensures NoneWorse(Worse(baseFee), urgent, floating)
    {
      stales := 0;
      var all := Gather(remotes);
      WorseOrder(baseFee);
      InitMakesHeap(Worse(baseFee), all);
      urgent := Init(Worse(baseFee), all);
      floating := [];
      var floatingCount := |urgent| * FLOATING_RATIO / (URGENT_RATIO + FLOATING_RATIO);
      var list: seq<Tx> := [];
      assert Exact(urgent, list, remotes) by {
        forall tx ensures Entries(urgent, list, tx) == if tx in remotes then 1 else 0 {
          assert multiset(urgent)[tx] == multiset(all)[tx];
        }
      }
      for i := 0 to floatingCount
        invariant Valid() && stales == 0 && floating == [] && |list| == i && |urgent| == |remotes| - i
        invariant Exact(urgent, list, remotes) && NoneWorse(Worse(baseFee), urgent, list)
      {
        SplitStep(baseFee, urgent, list, remotes);
        var tx := PopUrgent();
        list := list + [tx];
      }
      WorseOrder(None);
      InitMakesHeap(Worse(None), list);
      InitSameEntries(urgent, list, remotes, baseFee);
      floating := Init(Worse(None), list);
    }

    /** Counts departures and rebuilds the heaps once more than a quarter of the entries may be stale. */
    method Removed(count: int, remotes: set<Tx>)
      requires Valid()
      modifies this`urgent, this`floating, this`stales
      ensures Valid()
      ensures if old(stales) + count <= (|old(urgent)| + |old(floating)|) / 4
              then Held() == old(Held()).(stales := old(stales) + count)
              else Exact(urgent, floating, remotes) && stales == 0
      ensures KeepsCover(old(urgent), old(floating), urgent, floating, remotes)
    {
      stales := stales + count;
      if stales <= (|urgent| + |floating|) / 4 {
        return;
      }
      Reheap(remotes);
      ExactCovers(urgent, floating, remotes);
    }

    method SetBaseFee(fee: Option<int>, remotes: set<Tx>)
      modifies this
      ensures Valid() && baseFee == fee && Exact(urgent, floating, remotes) && Covers(urgent, floating, remotes)
      ensures |urgent| + |floating| == |remotes| && stales == 0
    {
      baseFee := fee;
      Reheap(remotes);
      ExactCovers(urgent, floating, remotes);
    }

    /** Whether `tx` is no better than the worst live entry of the urgent heap; stale entries on top are
        discarded first. */
    method UnderpricedForUrgent(tx: Tx, remotes: set<Tx>) returns (r: bool)
      requires Valid()
      modifies this`urgent, this`stales
      ensures Valid() && Conserved(remotes, old(urgent), floating, urgent, floating, [])
      ensures forall x <- urgent :: x in old(urgent)
      ensures urgent != [] <==> HasLive(old(urgent), remotes)
      ensures r <==> urgent != [] && NotBetter(baseFee, old(urgent), remotes, tx)
    {
      ghost var u0 := urgent;
      SameCounts(u0, floating, remotes);
      while urgent != [] && urgent[0] !in remotes
        invariant Valid() && Conserved(remotes, u0, floating, urgent, floating, [])
        invariant forall x <- urgent :: x in u0
        decreases |urgent|
      {
        PopMembers(Worse(baseFee), urgent);
        DropStale(remotes, u0, floating, urgent, floating, [], baseFee);
        stales := stales - 1;
        var _ := PopUrgent();
      }
      SameLive(remotes, u0, floating, urgent, floating);
      HeadDecides(baseFee, u0, urgent, remotes, tx);
      r := urgent != [] && Cmp(baseFee, urgent[0], tx) >= 0;
    }

    method UnderpricedForFloating(tx: Tx, remotes: set<Tx>) returns (r: bool)
      requires Valid()
      modifies this`floating, this`stales
      ensures Valid() && Conserved(remotes, urgent, old(floating), urgent, floating, [])
      ensures forall x <- floating :: x in old(floating)
      ensures floating != [] <==> HasLive(old(floating), remotes)
      ensures r <==> floating != [] && NotBetter(None, old(floating), remotes, tx)
    {
      ghost var f0 := floating;
      SameCounts(urgent, f0, remotes);
      while floating != [] && floating[0] !in remotes
        invariant Valid() && Conserved(remotes, urgent, f0, urgent, floating, [])
        invariant forall x <- floating :: x in f0
        decreases |floating|
      {
        PopMembers(Worse(None), floating);
        PopToDrop(remotes, urgent, f0, urgent, floating, []);
        stales := stales - 1;
        var _ := PopFloating();
      }
      SameLive(remotes, urgent, f0, urgent, floating);
      HeadDecides(None, f0, floating, remotes, tx);
      r := floating != [] && Cmp(None, floating[0], tx) >= 0;
    }

    /** A transaction is underpriced if it is no better than any live entry of either heap, and there is one. */
    method Underpriced(tx: Tx, remotes: set<Tx>) returns (r: bool)
      requires Valid()
      modifies this`urgent, this`floating, this`stales
      ensures Valid() && Conserved(remotes, old(urgent), old(floating), urgent, floating, [])
      ensures SubHeaps(urgent, floating, old(urgent), old(floating))
      ensures r <==> NoBetterThanAny(baseFee, old(urgent), old(floating), remotes, tx)
    {
      var a := UnderpricedForUrgent(tx, remotes);
      ghost var u := urgent;
      if !a && urgent != [] {
        return false;
      }
      var b := UnderpricedForFloating(tx, remotes);
      ConservedTwice(remotes, old(urgent), old(floating), u, floating);
      if !b && floating != [] {
        return false;
      }
      r := urgent != [] || floating != [];
    }

    /** Returns a drop list to the urgent heap. */
    method PutBack(drop: seq<Tx>, ghost remotes: set<Tx>, ghost u0: seq<Tx>, ghost f0: seq<Tx>)
      requires Valid() && Conserved(remotes, u0, f0, urgent, floating, drop)
      modifies this`urgent
      ensures Valid() && Conserved(remotes, u0, f0, urgent, floating, [])
    {
      assert drop[0..] == drop;
      for i := 0 to |drop|
        invariant Valid() && Conserved(remotes, u0, f0, urgent, floating, drop[i..])
      {
        ReturnOne(remotes, u0, f0, urgent, floating, drop[i..], baseFee);
        Put(drop[i], false);
        assert drop[i..][1..] == drop[i + 1..];
      }
    }
  }

  /** Each remote transaction has exactly one entry, and nothing else has any. */
  ghost predicate Exact(u: seq<Tx>, f: seq<Tx>, remotes: set<Tx>) {
    forall tx :: Entries(u, f, tx) == if tx in remotes then 1 else 0
  }

  ghost predicate NoneWorse(less: (Tx, Tx) -> bool, u: seq<Tx>, f: seq<Tx>) {
    forall a <- u, b <- f :: !less(a, b)
  }

  /** What is left of a heap is not worse than the root taken from it. */
  lemma RestNotWorse(baseFee: Option<int>, s: seq<Tx>)
    requires s != [] && IsHeap(Worse(baseFee), s)
    ensures NoneWorse(Worse(baseFee), PopRest(Worse(baseFee), s), [s[0]])
  {
    WorseOrder(baseFee);
    forall a | a in PopRest(Worse(baseFee), s) ensures !Worse(baseFee)(a, s[0]) {
      PopCount(Worse(baseFee), s, a);
      assert multiset(s)[a] > 0;
      var i :| 0 <= i < |s| && s[i] == a;
      RootIsLeast(Worse(baseFee), s, i);
    }
  }

  predicate WorseByBoth(baseFee: Option<int>, x: Tx, d: Tx) {
    Worse(baseFee)(x, d) && Worse(None)(x, d)
  }

  /** Nothing in the urgent heap is worse than anything in the floating one, and nothing in either is worse by
      both orders than something dropped. */
  ghost predicate Ordered(baseFee: Option<int>, u: seq<Tx>, f: seq<Tx>, drop: seq<Tx>) {
    && NoneWorse(Worse(baseFee), u, f)
    && forall d <- drop, x :: x in u || x in f ==> !WorseByBoth(baseFee, x, d)
  }

  lemma PopMembers(less: (Tx, Tx) -> bool, s: seq<Tx>)
    requires s != []
    ensures s[0] in s && forall x <- PopRest(less, s) :: x in s
  {
    forall x | x in PopRest(less, s) ensures x in s {
      PopCount(less, s, x);
      assert multiset(s)[x] > 0;
    }
  }

  lemma PushMembers(baseFee: Option<int>, s: seq<Tx>, tx: Tx)
    requires IsHeap(Worse(baseFee), s)
    ensures forall x <- Push(Worse(baseFee), s, tx) :: x == tx || x in s
  {
    forall x | x in Push(Worse(baseFee), s, tx) ensures x == tx || x in s {
      PushCount(baseFee, s, tx, x);
      assert multiset(Push(Worse(baseFee), s, tx))[x] > 0;
    }
  }

  lemma OrderedPopUrgent(baseFee: Option<int>, u: seq<Tx>, f: seq<Tx>, drop: seq<Tx>)
    requires u != [] && IsHeap(Worse(baseFee), u) && IsHeap(Worse(None), f)
    ensures Ordered(baseFee, u, f, drop) ==>
              && Ordered(baseFee, PopRest(Worse(baseFee), u), f, drop)
              && Ordered(baseFee, PopRest(Worse(baseFee), u), Push(Worse(None), f, u[0]), drop)
  {
    PopMembers(Worse(baseFee), u);
    PushMembers(None, f, u[0]);
    RestNotWorse(baseFee, u);
  }

  lemma OrderedPopFloating(baseFee: Option<int>, u: seq<Tx>, f: seq<Tx>, drop: seq<Tx>)
    requires f != [] && IsHeap(Worse(None), f)
    ensures Ordered(baseFee, u, f, drop) ==>
              && Ordered(baseFee, u, PopRest(Worse(None), f), drop)
              && Ordered(baseFee, u, PopRest(Worse(None), f), drop + [f[0]])
  {
    PopMembers(Worse(None), f);
    RestNotWorse(None, f);
  }

  /** How a drop list is chosen: no longer than needed, and, if the floating heap holds nothing better than the
      urgent one, with all entries of whatever is worse by both orders than one of its members. */
  ghost predicate Picks(baseFee: Option<int>, u: seq<Tx>, f: seq<Tx>, remotes: set<Tx>, needed: int, drop: seq<Tx>) {
    && (forall x <- drop :: x in remotes)
    && (drop != [] ==> Slots(drop[..|drop| - 1]) < needed)
    && (NoneWorse(Worse(baseFee), u, f) ==>
          forall d <- drop, x <- remotes :: WorseByBoth(baseFee, x, d) ==> multiset(drop)[x] == Entries(u, f, x))
  }

  lemma OrderedPicks(baseFee: Option<int>, u0: seq<Tx>, f0: seq<Tx>, u: seq<Tx>, f: seq<Tx>, remotes: set<Tx>, needed: int,
                     drop: seq<Tx>)
    requires Conserved(remotes, u0, f0, u, f, drop) && forall x <- drop :: x in remotes
    requires drop != [] ==> Slots(drop[..|drop| - 1]) < needed
    requires NoneWorse(Worse(baseFee), u0, f0) ==> Ordered(baseFee, u, f, drop)
    ensures Picks(baseFee, u0, f0, remotes, needed, drop)
  {
    if NoneWorse(Worse(baseFee), u0, f0) {
      forall d, x | d in drop && x in remotes && WorseByBoth(baseFee, x, d) ensures multiset(drop)[x] == Entries(u0, f0, x) {
        assert ConservedFor(u0, f0, u, f, drop, x);
        assert x !in u && x !in f;
        assert multiset(u)[x] == 0 && multiset(f)[x] == 0;
      }
    }
  }

  /** A choice made after stale entries left the heaps is one made before. */
  lemma PicksEarlier(baseFee: Option<int>, u0: seq<Tx>, f0: seq<Tx>, u: seq<Tx>, f: seq<Tx>, remotes: set<Tx>, needed: int,
                     drop: seq<Tx>)
    requires Conserved(remotes, u0, f0, u, f, []) && SubHeaps(u, f, u0, f0) &&
             Picks(baseFee, u, f, remotes, needed, drop)
    ensures Picks(baseFee, u0, f0, remotes, needed, drop)
  {
    forall x | x in remotes ensures Entries(u, f, x) == Entries(u0, f0, x) {
      assert ConservedFor(u0, f0, u, f, [], x);
    }
  }

  ghost predicate SubHeaps(u: seq<Tx>, f: seq<Tx>, u0: seq<Tx>, f0: seq<Tx>) {
    (forall x <- u :: x in u0) && (forall x <- f :: x in f0)
  }

  /** Moving the root of `u` to the list `f` keeps the entries exact and `u` free of anything worse. */
  lemma SplitStep(baseFee: Option<int>, u: seq<Tx>, f: seq<Tx>, remotes: set<Tx>)
    requires u != [] && IsHeap(Worse(baseFee), u) && Exact(u, f, remotes) && NoneWorse(Worse(baseFee), u, f)
    ensures var u' := PopRest(Worse(baseFee), u);
            Exact(u', f + [u[0]], remotes) && NoneWorse(Worse(baseFee), u', f + [u[0]])
  {
    WorseOrder(baseFee);
    var u', f' := PopRest(Worse(baseFee), u), f + [u[0]];
    forall tx ensures Entries(u', f', tx) == if tx in remotes then 1 else 0 {
      assert Entries(u, f, tx) == if tx in remotes then 1 else 0;
      PopCount(Worse(baseFee), u, tx);
      SnocCount(f, u[0], tx);
    }
    forall a, b | a in u' && b in f' ensures !Worse(baseFee)(a, b) {
      PopCount(Worse(baseFee), u, a);
      assert multiset(u)[a] > 0;
      var i :| 0 <= i < |u| && u[i] == a;
      RootIsLeast(Worse(baseFee), u, i);
    }
  }

  lemma ExactCovers(u: seq<Tx>, f: seq<Tx>, remotes: set<Tx>)
    requires Exact(u, f, remotes)
    ensures Covers(u, f, remotes)
  {
    forall tx | tx in remotes ensures tx in u || tx in f {
      assert Entries(u, f, tx) == 1;
    }
  }

  // ---------- what discarding can free ----------

  /** The slots of the live entries, each transaction counted as often as it has entries. */
  ghost function LiveSlots(u: seq<Tx>, f: seq<Tx>, remotes: set<Tx>): nat {
    if remotes == {} then 0
    else
      var x :| x in remotes;
      Entries(u, f, x) * NumSlots(x) + LiveSlots(u, f, remotes - {x})
  }

  lemma {:induction false} LiveSlotsTake(u: seq<Tx>, f: seq<Tx>, remotes: set<Tx>, x: Tx)
    requires x in remotes
    ensures LiveSlots(u, f, remotes) == Entries(u, f, x) * NumSlots(x) + LiveSlots(u, f, remotes - {x})
    decreases remotes
  {
    var y :| y in remotes && LiveSlots(u, f, remotes) == Entries(u, f, y) * NumSlots(y) + LiveSlots(u, f, remotes - {y});
    if y != x {
      LiveSlotsTake(u, f, remotes - {y}, x);
      LiveSlotsTake(u, f, remotes - {x}, y);
      assert remotes - {y} - {x} == remotes - {x} - {y};
    }
  }

  /** Entries add up, and so do their slots. */
  lemma {:induction false} LiveSlotsAdd(remotes: set<Tx>, u0: seq<Tx>, f0: seq<Tx>, u: seq<Tx>, f: seq<Tx>,
                                        drop: seq<Tx>)
    requires Conserved(remotes, u0, f0, u, f, drop)
    ensures LiveSlots(u0, f0, remotes) == LiveSlots(u, f, remotes) + LiveSlots(drop, [], remotes)
    decreases remotes
  {
    if remotes != {} {
      var x :| x in remotes;
      LiveSlotsTake(u0, f0, remotes, x);
      LiveSlotsTake(u, f, remotes, x);
      LiveSlotsTake(drop, [], remotes, x);
      LiveSlotsAdd(remotes - {x}, u0, f0, u, f, drop);
      assert ConservedFor(u0, f0, u, f, drop, x);
      Distribute(Entries(u, f, x), Entries(drop, [], x), NumSlots(x));
    }
  }

  lemma Distribute(a: nat, b: nat, k: nat)
    ensures (a + b) * k == a * k + b * k
  {
  }

  lemma {:induction false} LiveSlotsNone(u: seq<Tx>, f: seq<Tx>, remotes: set<Tx>)
    requires forall x <- remotes :: Entries(u, f, x) == 0
    ensures LiveSlots(u, f, remotes) == 0
    decreases remotes
  {
    if remotes != {} {
      var x :| x in remotes;
      LiveSlotsTake(u, f, remotes, x);
      LiveSlotsNone(u, f, remotes - {x});
    }
  }

  lemma LiveSlotsOne(tx: Tx, remotes: set<Tx>)
    requires tx in remotes
    ensures LiveSlots([tx], [], remotes) == NumSlots(tx)
  {
    LiveSlotsTake([tx], [], remotes, tx);
    assert multiset([tx])[tx] == 1;
    LiveSlotsNone([tx], [], remotes - {tx});
  }

  lemma {:induction false} LiveSlotsOfList(drop: seq<Tx>, remotes: set<Tx>)
    requires forall x <- drop :: x in remotes
    ensures LiveSlots(drop, [], remotes) == Slots(drop)
    decreases |drop|
  {
    if drop == [] {
      LiveSlotsNone([], [], remotes);
    } else {
      var rest, last := drop[..|drop| - 1], drop[|drop| - 1];
      assert drop == rest + [last];
      forall x | x in remotes ensures ConservedFor(drop, [], rest, [], [last], x) {
        SnocCount(rest, last, x);
      }
      LiveSlotsAdd(remotes, drop, [], rest, [], [last]);
      LiveSlotsOfList(rest, remotes);
      LiveSlotsOne(last, remotes);
    }
  }

  /** What was live is still live or dropped, slot by slot. */
  lemma LiveConserved(remotes: set<Tx>, u0: seq<Tx>, f0: seq<Tx>, u: seq<Tx>, f: seq<Tx>, drop: seq<Tx>)
    requires Conserved(remotes, u0, f0, u, f, drop) && forall x <- drop :: x in remotes
    ensures LiveSlots(u0, f0, remotes) == LiveSlots(u, f, remotes) + Slots(drop)
    ensures u == [] && f == [] ==> LiveSlots(u0, f0, remotes) == Slots(drop)
  {
    LiveSlotsAdd(remotes, u0, f0, u, f, drop);
    LiveSlotsOfList(drop, remotes);
    if u == [] && f == [] {
      LiveSlotsNone([], [], remotes);
    }
  }

  /** No remote transaction has two entries. */
  ghost predicate Single(u: seq<Tx>, f: seq<Tx>, remotes: set<Tx>) {
    forall x <- remotes :: Entries(u, f, x) <= 1
  }

  /** A transaction that leaves the pool while at most a quarter of the entries are stale keeps its entry; if
      it comes back it has two. */
  method Rejoin(tx: Tx, others: set<Tx>) returns (list: TxPricedList)
    requires tx !in others && |others| >= 3
    ensures fresh(list) && list.Valid() && Entries(list.urgent, list.floating, tx) == 2
    ensures Covers(list.urgent, list.floating, others + {tx}) && !Single(list.urgent, list.floating, others + {tx})
  {
    list := new TxPricedList();
    list.SetBaseFee(None, others + {tx});
    ghost var u, f := list.urgent, list.floating;
    assert Entries(u, f, tx) == 1 && |u| + |f| >= 4;
    list.Removed(1, others);
    PushCount(list.baseFee, u, tx, tx);
    PutCovers(list.baseFee, u, tx);
    list.Put(tx, false);
    assert Entries(list.urgent, f, tx) == 2;
  }

  // ---------- underpricing ----------

  ghost predicate HasLive(s: seq<Tx>, remotes: set<Tx>) {
    exists x :: x in s && x in remotes
  }

  /** `tx` is no better than any live entry of `s`. */
  ghost predicate NotBetter(baseFee: Option<int>, s: seq<Tx>, remotes: set<Tx>, tx: Tx) {
    forall x <- s :: x in remotes ==> Cmp(baseFee, x, tx) >= 0
  }

  /** There are live entries, and `tx` is no better than any of them. */
  ghost predicate NoBetterThanAny(baseFee: Option<int>, u: seq<Tx>, f: seq<Tx>, remotes: set<Tx>, tx: Tx) {
    && NotBetter(baseFee, u, remotes, tx) && NotBetter(None, f, remotes, tx)
    && (HasLive(u, remotes) || HasLive(f, remotes))
  }

  ghost predicate SameMembers(s: seq<Tx>, t: seq<Tx>, remotes: set<Tx>) {
    forall x <- remotes :: x in s <==> x in t
  }

  lemma SameLive(remotes: set<Tx>, u0: seq<Tx>, f0: seq<Tx>, u: seq<Tx>, f: seq<Tx>)
    requires Conserved(remotes, u0, f0, u, f, []) && (u0 == u || f0 == f)
    ensures SameMembers(u0, u, remotes) && SameMembers(f0, f, remotes)
  {
    forall x | x in remotes ensures (x in u0 <==> x in u) && (x in f0 <==> x in f) {
      assert ConservedFor(u0, f0, u, f, [], x);
      assert x in u0 <==> multiset(u0)[x] > 0;
    }
  }

  lemma CmpTransitive(baseFee: Option<int>, a: Tx, b: Tx, c: Tx)
    requires Cmp(baseFee, a, b) >= 0 && Cmp(baseFee, b, c) >= 0
    ensures Cmp(baseFee, a, c) >= 0
  {
  }

  /** Once the top entry is live it stands for all live entries, before or after the clean-up. */
  lemma HeadDecides(baseFee: Option<int>, s0: seq<Tx>, s: seq<Tx>, remotes: set<Tx>, tx: Tx)
    requires IsHeap(Worse(baseFee), s) && SameMembers(s0, s, remotes) && (s != [] ==> s[0] in remotes)
    ensures s != [] <==> HasLive(s0, remotes)
    ensures s != [] ==> (Cmp(baseFee, s[0], tx) >= 0 <==> NotBetter(baseFee, s0, remotes, tx))
  {
    if s != [] {
      assert s[0] in s0;
      if Cmp(baseFee, s[0], tx) >= 0 {
        forall x | x in s0 && x in remotes ensures Cmp(baseFee, x, tx) >= 0 {
          assert x in s;
          var i :| 0 <= i < |s| && s[i] == x;
          WorseOrder(baseFee);
          RootIsLeast(Worse(baseFee), s, i);
          CmpTransitive(baseFee, x, s[0], tx);
        }
      }
    }
  }

  lemma SameCounts(u: seq<Tx>, f: seq<Tx>, remotes: set<Tx>)
    ensures Conserved(remotes, u, f, u, f, [])
  {
  }

  lemma ConservedTwice(remotes: set<Tx>, u0: seq<Tx>, f0: seq<Tx>, u: seq<Tx>, f: seq<Tx>)
    requires Conserved(remotes, u0, f0, u, f0, []) && Conserved(remotes, u, f0, u, f, [])
    ensures Conserved(remotes, u0, f0, u, f, [])
  {
    forall x | x in remotes ensures ConservedFor(u0, f0, u, f, [], x) {
      assert ConservedFor(u0, f0, u, f0, [], x) && ConservedFor(u, f0, u, f, [], x);
    }
  }

  /** Conservation first without and then with a drop list. */
  lemma ConservedThen(remotes: set<Tx>, u0: seq<Tx>, f0: seq<Tx>, u1: seq<Tx>, f1: seq<Tx>, u: seq<Tx>, f: seq<Tx>,
                      drop: seq<Tx>)
    requires Conserved(remotes, u0, f0, u1, f1, []) && Conserved(remotes, u1, f1, u, f, drop)
    ensures Conserved(remotes, u0, f0, u, f, drop) && LiveSlots(u0, f0, remotes) == LiveSlots(u1, f1, remotes)
  {
    forall x | x in remotes ensures ConservedFor(u0, f0, u, f, drop, x) {
      assert ConservedFor(u0, f0, u1, f1, [], x) && ConservedFor(u1, f1, u, f, drop, x);
    }
    LiveConserved(remotes, u0, f0, u1, f1, []);
  }

  /** A request for slots is met with something unless there is nothing. */
  lemma DropsSomething(remotes: set<Tx>, u: seq<Tx>, f: seq<Tx>, drop: seq<Tx>, needed: int)
    requires needed > 0 && (Slots(drop) >= needed || (u == [] && f == []))
    requires (forall x <- remotes :: x in u || x in f || x in drop) && forall x <- drop :: x in remotes
    ensures drop == [] <==> remotes == {}
  {
    if drop == [] {
      assert forall x <- remotes :: false;
    } else {
      assert drop[0] in remotes;
    }
  }

  /** Conservation carries coverage over, up to what is dropped. */
  lemma ConservedCovers(remotes: set<Tx>, u0: seq<Tx>, f0: seq<Tx>, u: seq<Tx>, f: seq<Tx>, drop: seq<Tx>)
    requires Conserved(remotes, u0, f0, u, f, drop) && Covers(u0, f0, remotes)
    ensures forall x <- remotes :: x in u || x in f || x in drop
  {
    forall x | x in remotes ensures x in u || x in f || x in drop {
      assert ConservedFor(u0, f0, u, f, drop, x);
      assert Entries(u0, f0, x) > 0;
    }
  }

  method Gather(remotes: set<Tx>) returns (all: seq<Tx>)
    ensures |all| == |remotes| && forall tx :: multiset(all)[tx] == if tx in remotes then 1 else 0
  {
    all := [];
    var todo := remotes;
    while todo != {}
      invariant todo <= remotes && |all| == |remotes| - |todo|
      invariant forall tx :: multiset(all)[tx] == if tx in remotes && tx !in todo then 1 else 0
      decreases todo
    {
      var tx :| tx in todo;
      forall x ensures multiset(all + [tx])[x] == multiset(all)[x] + if x == tx then 1 else 0 {
        SnocCount(all, tx, x);
      }
      all := all + [tx];
      todo := todo - {tx};
    }
  }

  lemma InitSameEntries(u: seq<Tx>, list: seq<Tx>, remotes: set<Tx>, baseFee: Option<int>)
    requires Exact(u, list, remotes) && NoneWorse(Worse(baseFee), u, list)
    ensures var f := Init(Worse(None), list); Exact(u, f, remotes) && NoneWorse(Worse(baseFee), u, f)
  {
    var f := Init(Worse(None), list);
    WorseOrder(None);
    InitMakesHeap(Worse(None), list);
    forall tx ensures Entries(u, f, tx) == if tx in remotes then 1 else 0 {
      assert Entries(u, list, tx) == if tx in remotes then 1 else 0;
    }
    forall a, b | a in u && b in f ensures !Worse(baseFee)(a, b) {
      assert multiset(f)[b] > 0 && multiset(list)[b] > 0;
      assert b in list;
    }
  }

  // ---------- conservation, step by step ----------

  lemma DropStale(remotes: set<Tx>, u0: seq<Tx>, f0: seq<Tx>, u: seq<Tx>, f: seq<Tx>, drop: seq<Tx>,
                  baseFee: Option<int>)
    requires u != [] && u[0] !in remotes && Conserved(remotes, u0, f0, u, f, drop)
    ensures Conserved(remotes, u0, f0, PopRest(Worse(baseFee), u), f, drop)
  {
    var u' := PopRest(Worse(baseFee), u);
    forall tx | tx in remotes ensures ConservedFor(u0, f0, u', f, drop, tx) {
      assert ConservedFor(u0, f0, u, f, drop, tx);
      PopCount(Worse(baseFee), u, tx);
    }
  }

  lemma MoveToFloating(remotes: set<Tx>, u0: seq<Tx>, f0: seq<Tx>, u: seq<Tx>, f: seq<Tx>, drop: seq<Tx>,
                       baseFee: Option<int>)
    requires u != [] && IsHeap(Worse(None), f) && Conserved(remotes, u0, f0, u, f, drop)
    ensures Conserved(remotes, u0, f0, PopRest(Worse(baseFee), u), Push(Worse(None), f, u[0]), drop)
  {
    var u', f' := PopRest(Worse(baseFee), u), Push(Worse(None), f, u[0]);
    forall tx | tx in remotes ensures ConservedFor(u0, f0, u', f', drop, tx) {
      assert ConservedFor(u0, f0, u, f, drop, tx);
      PopCount(Worse(baseFee), u, tx);
      PushCount(None, f, u[0], tx);
    }
  }

  lemma PopToDrop(remotes: set<Tx>, u0: seq<Tx>, f0: seq<Tx>, u: seq<Tx>, f: seq<Tx>, drop: seq<Tx>)
    requires f != [] && Conserved(remotes, u0, f0, u, f, drop)
    ensures Conserved(remotes, u0, f0, u, PopRest(Worse(None), f), if f[0] in remotes then drop + [f[0]] else drop)
  {
    var f', drop' := PopRest(Worse(None), f), if f[0] in remotes then drop + [f[0]] else drop;
    forall tx | tx in remotes ensures ConservedFor(u0, f0, u, f', drop', tx) {
      assert ConservedFor(u0, f0, u, f, drop, tx);
      PopCount(Worse(None), f, tx);
      SnocCount(drop, f[0], tx);
    }
  }

  lemma ReturnOne(remotes: set<Tx>, u0: seq<Tx>, f0: seq<Tx>, u: seq<Tx>, f: seq<Tx>, drop: seq<Tx>,
                  baseFee: Option<int>)
    requires drop != [] && IsHeap(Worse(baseFee), u) && Conserved(remotes, u0, f0, u, f, drop)
    ensures Conserved(remotes, u0, f0, Push(Worse(baseFee), u, drop[0]), f, drop[1..])
  {
    var u', drop' := Push(Worse(baseFee), u, drop[0]), drop[1..];
    forall tx | tx in remotes ensures ConservedFor(u0, f0, u', f, drop', tx) {
      assert ConservedFor(u0, f0, u, f, drop, tx);
      PushCount(baseFee, u, drop[0], tx);
      assert drop == [drop[0]] + drop[1..];
    }
  }
}
