/** The section indexer: a background worker that stores the last header hash of every section of
    `size` headers.  It releases its lock while it processes a section, so the canonical chain, reorg
    notifications and checkpoints may all change in between.

    The indexer is a state machine.  Each action is one critical section of the lock (or one access
    outside it), so a run is an arbitrary interleaving of the update loop, chain notifications and
    checkpoints.  Reads of the chain database while a section is processed are answered by an
    arbitrary function of the block number, since the chain may move between any two reads.
 */
module ChainIndexerModel {
  import opened Options
  import opened ChainTree

  datatype Job = Idle | Busy(section: nat, oldHead: Hash)

  datatype Indexer = Indexer(
    heads: map<nat, Hash>,
    stored: nat,
    known: nat,
    checkpoint: nat,
    checkpointHead: Hash,
    job: Job)

  /** What the chain database answers for a height: the canonical header there, if it is known. */
  type Reads = nat -> Option<Header>

  datatype Action =
    | Reorg(head: nat)
    | NewHead(head: nat, chain: map<nat, Hash>)
    | AddCheckpoint(section: nat, shead: Hash)
    | Begin(chain: map<nat, Hash>)
    | ResetFails
    | End(db: Reads, backendOk: bool, chain: map<nat, Hash>)
    | Query(chain: map<nat, Hash>)

  function At(m: map<nat, Hash>, n: nat): Hash {
    if n in m then m[n] else NoHash
  }

  /** Changes the section count, forgetting the heads of dropped sections. */
  function SetValid(x: Indexer, sections: nat): Indexer {
    x.(stored := sections, heads := map s | s in x.heads && !(sections <= s < x.stored) :: x.heads[s])
  }

  /** Drops trailing sections, down to the checkpoint, until the last stored head is canonical. */
  function VerifyLast(x: Indexer, chain: map<nat, Hash>, size: nat): Indexer
    requires size > 0
    decreases x.stored
  {
    if x.stored > x.checkpoint && At(x.heads, x.stored - 1) != At(chain, x.stored * size - 1)
    then VerifyLast(SetValid(x, x.stored - 1), chain, size)
    else x
  }

  /** The result of processing the headers from `number` up to `end`, given the hash reached so far. */
  function ProcessFrom(number: nat, end: nat, last: Hash, db: Reads): (r: Option<Hash>)
    requires number <= end
    decreases end - number
  {
    if number == end then Some(last)
    else
      var header := db(number);
      if header.None? || header.value.number != number || header.value.parentHash != last then None
      else ProcessFrom(number + 1, end, Digest(header.value), db)
  }

  function Process(section: nat, oldHead: Hash, db: Reads, size: nat): Option<Hash> {
    ProcessFrom(section * size, section * size + size, oldHead, db)
  }

  /** A reorg down to `head`: sections past it are no longer known, and stored ones are dropped, but
      never below the checkpoint. */
  function AfterReorg(x: Indexer, head: nat, size: nat): Indexer
    requires size > 0
  {
    var sections := (head + 1) / size;
    var known := if sections < x.checkpoint then 0 else sections;
    var stored := if sections < x.checkpoint then x.checkpoint else sections;
    var y := if known < x.known then x.(known := known) else x;
    if stored < x.stored then SetValid(y, stored) else y
  }

  /** A new head: more sections may be known, once the chain agrees with the checkpoint. */
  function AfterNewHead(x: Indexer, head: nat, chain: map<nat, Hash>, size: nat, confirms: nat): Indexer
    requires size > 0
  {
    if head < confirms then x
    else
      var n := (head + 1 - confirms) / size;
      var sections := if n < x.checkpoint then 0 else n;
      if sections <= x.known then x
      else if x.known < x.checkpoint && At(chain, x.checkpoint * size - 1) != x.checkpointHead then x
      else x.(known := sections)
  }

  function AfterCheckpoint(x: Indexer, section: nat, shead: Hash): Indexer {
    if x.checkpoint >= section + 1 || section < x.stored then x
    else SetValid(x.(checkpoint := section + 1, checkpointHead := shead, heads := x.heads[section := shead]),
                  section + 1)
  }

  /** The update loop takes a section to process and releases the lock. */
  function AfterBegin(x: Indexer, chain: map<nat, Hash>, size: nat): Indexer
    requires size > 0
  {
    if x.job.Busy? || x.known <= x.stored then x
    else
      var y := VerifyLast(x, chain, size);
      y.(job := Busy(y.stored, if y.stored > 0 then At(y.heads, y.stored - 1) else NoHash))
  }

  /** The update loop holds the lock again with the outcome of processing. */
  function AfterEnd(x: Indexer, newHead: Option<Hash>, chain: map<nat, Hash>, size: nat): Indexer
    requires size > 0 && x.job.Busy?
  {
    var s, y := x.job.section, x.(job := Idle);
    if newHead.Some? && (s == 0 || x.job.oldHead == At(x.heads, s - 1))
    then SetValid(y.(heads := y.heads[s := newHead.value]), s + 1)
    else
      var z := VerifyLast(y, chain, size);
      z.(known := z.stored)
  }

  function Step(x: Indexer, a: Action, size: nat, confirms: nat): Indexer
    requires size > 0
  {
    match a
    case Reorg(head) => AfterReorg(x, head, size)
    case NewHead(head, chain) => AfterNewHead(x, head, chain, size, confirms)
    case AddCheckpoint(section, shead) => AfterCheckpoint(x, section, shead)
    case Begin(chain) => AfterBegin(x, chain, size)
    case ResetFails => if x.job.Idle? then x else SetValid(x, 0)
    case End(db, backendOk, chain) =>
      if x.job.Idle? then x
      else AfterEnd(x, if backendOk then Process(x.job.section, x.job.oldHead, db, size) else None, chain, size)
    case Query(chain) => VerifyLast(x, chain, size)
  }

  ghost predicate Legal(a: Action) {
    a.AddCheckpoint? ==> a.shead != NoHash
  }

  // ---------- the invariant ----------

  /** `h` is reached from `p` by `k` parent-linked headers, the last of them at height `n`. */
  ghost predicate LinkedRun(p: Hash, h: Hash, k: nat, n: int) {
    if k == 0 then h == p
    else h.Digest? && h.header.number == n && LinkedRun(p, h.header.parentHash, k - 1, n - 1)
  }

  ghost function Previous(heads: map<nat, Hash>, s: nat): Hash {
    if s == 0 then NoHash else At(heads, s - 1)
  }

  /** The number of the last header of a section. */
  function SectionEnd(s: nat, size: nat): int {
    s * size + size - 1
  }

  /** Section `s` is stored, and its head is `size` headers after the previous section's head. */
  ghost predicate SectionLinked(heads: map<nat, Hash>, s: nat, size: nat) {
    && s in heads
    && LinkedRun(Previous(heads, s), heads[s], size, SectionEnd(s, size))
  }

  ghost predicate HeadAt(heads: map<nat, Hash>, s: nat) {
    s in heads && heads[s] != NoHash
  }

  ghost predicate Inv(x: Indexer, size: nat) {
    && (forall s | x.checkpoint <= s < x.stored :: SectionLinked(x.heads, s, size))
    && (forall s <- x.heads :: s < x.stored)
    && (x.stored > 0 ==> HeadAt(x.heads, x.stored - 1))
    && (x.stored >= x.checkpoint > 0 ==> HeadAt(x.heads, x.checkpoint - 1))
    && (x.job.Busy? ==> if x.job.section == 0 then x.job.oldHead == NoHash else x.job.oldHead != NoHash)
  }

  lemma LinkedRunHead(p: Hash, h: Hash, k: nat, n: int)
    requires LinkedRun(p, h, k, n) && k > 0
    ensures h != NoHash
  {
  }

  /** Cutting the sections anywhere from the checkpoint up, or to zero, keeps the invariant. */
  lemma CutKeepsInv(x: Indexer, sections: nat, size: nat)
    requires Inv(x, size) && size > 0 && sections <= x.stored && (x.checkpoint <= sections || sections == 0)
    ensures Inv(SetValid(x, sections), size)
  {
    var y := SetValid(x, sections);
    forall s | y.checkpoint <= s < y.stored ensures SectionLinked(y.heads, s, size) {
      assert SectionLinked(x.heads, s, size);
      if s > x.checkpoint {
        assert SectionLinked(x.heads, s - 1, size);
      }
    }
    if sections > x.checkpoint {
      assert SectionLinked(x.heads, sections - 1, size);
    }
  }

  lemma {:induction false} VerifyKeepsInv(x: Indexer, chain: map<nat, Hash>, size: nat)
    requires Inv(x, size) && size > 0
    ensures Inv(VerifyLast(x, chain, size), size)
    ensures VerifyLast(x, chain, size).checkpoint == x.checkpoint && VerifyLast(x, chain, size).job == x.job
    decreases x.stored
  {
    if x.stored > x.checkpoint && At(x.heads, x.stored - 1) != At(chain, x.stored * size - 1) {
      CutKeepsInv(x, x.stored - 1, size);
      VerifyKeepsInv(SetValid(x, x.stored - 1), chain, size);
    }
  }

  /** Each header was checked against the hash before it, so the result closes a parent-linked run
      however the chain moved between the reads. */
  lemma {:induction false} ProcessedIsLinked(start: nat, number: nat, end: nat, p: Hash, last: Hash, db: Reads)
    requires start <= number <= end && LinkedRun(p, last, number - start, number - 1)
    ensures var r := ProcessFrom(number, end, last, db);
            r.Some? ==> LinkedRun(p, r.value, end - start, end - 1)
    decreases end - number
  {
    if number < end {
      var header := db(number);
      if header.Some? && header.value.number == number && header.value.parentHash == last {
        ProcessedIsLinked(start, number + 1, end, p, Digest(header.value), db);
      }
    }
  }

  /** Why comparing one hash is enough: if the previous section's head is still the one processing
      started from, every stored section below is still in place and the new head extends it. */
  lemma CommitKeepsInv(x: Indexer, newHead: Hash, size: nat)
    requires Inv(x, size) && size > 0 && x.job.Busy?
    requires var s := x.job.section;
             (s == 0 || x.job.oldHead == At(x.heads, s - 1)) && LinkedRun(x.job.oldHead, newHead, size, SectionEnd(s, size))
    ensures var s := x.job.section;
            Inv(SetValid(x.(job := Idle, heads := x.heads[s := newHead]), s + 1), size)
  {
    var s := x.job.section;
    var y := SetValid(x.(job := Idle, heads := x.heads[s := newHead]), s + 1);
    LinkedRunHead(x.job.oldHead, newHead, size, SectionEnd(s, size));
    assert s <= x.stored;
    forall i | y.checkpoint <= i < y.stored ensures SectionLinked(y.heads, i, size) {
      if i < s {
        assert SectionLinked(x.heads, i, size);
      }
    }
  }

  lemma ReorgKeepsInv(x: Indexer, head: nat, size: nat)
    requires Inv(x, size) && size > 0
    ensures Inv(AfterReorg(x, head, size), size)
  {
    var sections := (head + 1) / size;
    var known := if sections < x.checkpoint then 0 else sections;
    var stored := if sections < x.checkpoint then x.checkpoint else sections;
    var y := if known < x.known then x.(known := known) else x;
    if stored < x.stored {
      CutKeepsInv(y, stored, size);
    }
  }

  lemma CheckpointKeepsInv(x: Indexer, section: nat, shead: Hash, size: nat)
    requires Inv(x, size) && size > 0 && shead != NoHash
    ensures Inv(AfterCheckpoint(x, section, shead), size)
  {
  }

  lemma EndKeepsInv(x: Indexer, newHead: Option<Hash>, chain: map<nat, Hash>, size: nat)
    requires Inv(x, size) && size > 0 && x.job.Busy?
    requires newHead.Some? ==> LinkedRun(x.job.oldHead, newHead.value, size, SectionEnd(x.job.section, size))
    ensures Inv(AfterEnd(x, newHead, chain, size), size)
  {
    var s := x.job.section;
    if newHead.Some? && (s == 0 || x.job.oldHead == At(x.heads, s - 1)) {
      CommitKeepsInv(x, newHead.value, size);
    } else {
      VerifyKeepsInv(x.(job := Idle), chain, size);
    }
  }

  lemma StepKeepsInv(x: Indexer, a: Action, size: nat, confirms: nat)
    requires Inv(x, size) && size > 0 && Legal(a)
    ensures Inv(Step(x, a, size, confirms), size)
  {
    match a
    case Reorg(head) => ReorgKeepsInv(x, head, size);
    case NewHead(head, chain) =>
    case AddCheckpoint(section, shead) => CheckpointKeepsInv(x, section, shead, size);
    case Begin(chain) => VerifyKeepsInv(x, chain, size);
    case ResetFails => CutKeepsInv(x, 0, size);
    case End(db, backendOk, chain) =>
      if x.job.Busy? {
        var start, oldHead := x.job.section * size, x.job.oldHead;
        ProcessedIsLinked(start, start, start + size, oldHead, oldHead, db);
        EndKeepsInv(x, if backendOk then Process(x.job.section, oldHead, db, size) else None, chain, size);
      }
    case Query(chain) => VerifyKeepsInv(x, chain, size);
  }

  ghost function Run(x: Indexer, actions: seq<Action>, size: nat, confirms: nat): Indexer
    requires size > 0
    decreases |actions|
  {
    if actions == [] then x else Run(Step(x, actions[0], size, confirms), actions[1..], size, confirms)
  }

  /** In every run the stored heads above the checkpoint are a parent-linked chain, one every `size` headers. */
  lemma {:induction false} RunsKeepSectionsLinked(x: Indexer, actions: seq<Action>, size: nat, confirms: nat)
    requires Inv(x, size) && size > 0
    requires forall i | 0 <= i < |actions| :: Legal(actions[i])
    ensures Inv(Run(x, actions, size, confirms), size)
    decreases |actions|
  {
    if actions != [] {
      StepKeepsInv(x, actions[0], size, confirms);
      RunsKeepSectionsLinked(Step(x, actions[0], size, confirms), actions[1..], size, confirms);
    }
  }

  /** A checkpoint that arrives while an earlier section is processed is undone when that section
      ends: the stored count falls back below the checkpoint. */
  lemma CheckpointUndone(x: Indexer, section: nat, shead: Hash, newHead: Hash, chain: map<nat, Hash>, size: nat)
    requires Inv(x, size) && size > 0 && x.job.Busy? && x.job.section == x.stored < section && x.checkpoint <= section
    requires x.stored > 0 ==> x.job.oldHead == At(x.heads, x.stored - 1)
    ensures var y := AfterCheckpoint(x, section, shead);
            var z := AfterEnd(y, Some(newHead), chain, size);
            y.stored == y.checkpoint == section + 1 && z.stored == x.stored + 1 < z.checkpoint && section !in z.heads
  {
    var y := AfterCheckpoint(x, section, shead);
    assert x.stored > 0 ==> At(y.heads, x.stored - 1) == At(x.heads, x.stored - 1);
  }

  /** The job at hand ends by committing its section. */
  ghost predicate Commits(x: Indexer, a: Action, size: nat) {
    && a.End? && x.job.Busy? && a.backendOk && Process(x.job.section, x.job.oldHead, a.db, size).Some?
    && x.job.oldHead == Previous(x.heads, x.job.section)
  }

  /** The two steps that undo a checkpoint: a backend that cannot be reset takes all sections away, and a
      section from below the checkpoint that ends sets the count back to it. */
  ghost predicate Undoes(x: Indexer, a: Action, size: nat) {
    || (a.ResetFails? && x.job.Busy? && x.checkpoint > 0)
    || (Commits(x, a, size) && x.job.section + 1 < x.checkpoint)
  }

  lemma {:induction false} VerifyStopsAtCheckpoint(x: Indexer, chain: map<nat, Hash>, size: nat)
    requires size > 0 && x.stored >= x.checkpoint
    ensures VerifyLast(x, chain, size).stored >= x.checkpoint == VerifyLast(x, chain, size).checkpoint
    decreases x.stored
  {
    if x.stored > x.checkpoint && At(x.heads, x.stored - 1) != At(chain, x.stored * size - 1) {
      VerifyStopsAtCheckpoint(SetValid(x, x.stored - 1), chain, size);
    }
  }

  /** Exactly when a step keeps the sections at or above the checkpoint. */
  lemma StepKeepsCheckpoint(x: Indexer, a: Action, size: nat, confirms: nat)
    requires Inv(x, size) && size > 0 && x.stored >= x.checkpoint
    ensures var y := Step(x, a, size, confirms); y.stored >= y.checkpoint <==> !Undoes(x, a, size)
  {
    match a
    case Begin(chain) => VerifyStopsAtCheckpoint(x, chain, size);
    case Query(chain) => VerifyStopsAtCheckpoint(x, chain, size);
    case End(db, backendOk, chain) => VerifyStopsAtCheckpoint(x.(job := Idle), chain, size);
    case _ =>
  }

  ghost predicate AlwaysAbove(x: Indexer, actions: seq<Action>, size: nat, confirms: nat)
    requires size > 0
    decreases |actions|
  {
    x.stored >= x.checkpoint && (actions == [] || AlwaysAbove(Step(x, actions[0], size, confirms), actions[1..], size,
                                                              confirms))
  }

  ghost predicate NeverUndone(x: Indexer, actions: seq<Action>, size: nat, confirms: nat)
    requires size > 0
    decreases |actions|
  {
    actions == [] || (!Undoes(x, actions[0], size) && NeverUndone(Step(x, actions[0], size, confirms), actions[1..],
                                                                  size, confirms))
  }

  /** A run keeps the sections at or above the checkpoint throughout exactly if none of its steps undoes one. */
  lemma {:induction false} RunsKeepCheckpoint(x: Indexer, actions: seq<Action>, size: nat, confirms: nat)
    requires Inv(x, size) && size > 0 && x.stored >= x.checkpoint
    requires forall i | 0 <= i < |actions| :: Legal(actions[i])
    ensures AlwaysAbove(x, actions, size, confirms) <==> NeverUndone(x, actions, size, confirms)
    decreases |actions|
  {
    if actions != [] {
      var y := Step(x, actions[0], size, confirms);
      StepKeepsInv(x, actions[0], size, confirms);
      StepKeepsCheckpoint(x, actions[0], size, confirms);
      if y.stored >= y.checkpoint {
        RunsKeepCheckpoint(y, actions[1..], size, confirms);
      }
    }
  }

  // ---------- canonical sections ----------

  ghost predicate SectionCanonical(x: Indexer, s: nat, chain: map<nat, Hash>, size: nat)
    requires size > 0
  {
    At(x.heads, s) == At(chain, SectionEnd(s, size))
  }

  /** A parent-linked run that ends on a chain starts on it. */
  lemma {:induction false} RunStartsOnChain(h: Header, p: Hash, k: nat, n: nat)
    requires Linked(h) && n <= h.number && k <= n + 1
    requires LinkedRun(p, Digest(AncestorAt(h, n)), k, n)
    ensures p == if k == n + 1 then NoHash else Digest(AncestorAt(h, n - k))
    decreases k
  {
    if k > 0 && n > 0 {
      AncestorParent(h, n);
      RunStartsOnChain(h, p, k - 1, n - 1);
    }
  }

  /** One canonical section makes the section before it canonical. */
  lemma PreviousCanonical(heads: map<nat, Hash>, s: nat, h: Header, size: nat)
    requires size > 0 && Linked(h) && s > 0 && SectionLinked(heads, s, size)
    requires At(heads, s) == At(CanonicalOf(h), SectionEnd(s, size))
    ensures At(heads, s - 1) == At(CanonicalOf(h), SectionEnd(s - 1, size))
  {
    var n, prev := SectionEnd(s, size), At(heads, s - 1);
    SectionBefore(s, size);
    HeadOnChain(h, prev, heads[s], size, n, SectionEnd(s - 1, size));
  }

  lemma HeadOnChain(h: Header, p: Hash, k: Hash, size: nat, n: nat, m: nat)
    requires Linked(h) && 0 < size <= n && m == n - size && LinkedRun(p, k, size, n) && k == At(CanonicalOf(h), n)
    ensures p == At(CanonicalOf(h), m)
  {
    RunStartsOnChain(h, p, size, n);
  }

  lemma SectionBefore(s: nat, size: nat)
    requires s > 0 && size > 0
    ensures SectionEnd(s - 1, size) == SectionEnd(s, size) - size >= 0
  {
    assert (s - 1) * size == s * size - size;
  }

  /** If the last stored head is canonical then so is every stored head above the checkpoint, and the
      checkpoint's own head too. */
  lemma {:induction false} LastCanonicalMeansAll(x: Indexer, s: nat, h: Header, size: nat)
    requires Inv(x, size) && size > 0 && Linked(h) && x.stored > x.checkpoint
    requires SectionCanonical(x, x.stored - 1, CanonicalOf(h), size)
    requires s < x.stored && x.checkpoint <= s + 1
    ensures SectionCanonical(x, s, CanonicalOf(h), size)
    decreases x.stored - s
  {
    if s < x.stored - 1 {
      LastCanonicalMeansAll(x, s + 1, h, size);
      assert SectionLinked(x.heads, s + 1, size);
      PreviousCanonical(x.heads, s + 1, h, size);
    }
  }

  lemma LastEnd(stored: nat, size: nat)
    requires stored > 0
    ensures SectionEnd(stored - 1, size) == stored * size - 1
  {
  }

  lemma CutKeepsSections(x: Indexer, sections: nat, chain: map<nat, Hash>, size: nat)
    requires size > 0 && sections <= x.stored
    ensures forall s: nat | s < sections :: At(SetValid(x, sections).heads, s) == At(x.heads, s)
    ensures forall s: nat | s < sections :: SectionCanonical(SetValid(x, sections), s, chain, size) <==> SectionCanonical(x, s, chain, size)
  {
  }

  lemma VerifyStep(x: Indexer, last: nat, chain: map<nat, Hash>, size: nat)
    requires size > 0 && x.checkpoint <= last == x.stored - 1
    ensures VerifyLast(x, chain, size) ==
            if SectionCanonical(x, last, chain, size) then x else VerifyLast(SetValid(x, last), chain, size)
  {
    LastEnd(x.stored, size);
  }

  /** Verification keeps exactly the longest canonical prefix above the checkpoint. */
  lemma {:induction false} VerifyKeepsLongestPrefix(x: Indexer, h: Header, size: nat)
    requires Inv(x, size) && size > 0 && Linked(h)
    ensures var chain := CanonicalOf(h);
            var y := VerifyLast(x, chain, size);
            && y.stored <= x.stored && (y.stored < x.stored ==> x.checkpoint <= y.stored)
            && (forall s | 0 <= s < y.stored :: At(y.heads, s) == At(x.heads, s))
            && (forall s | x.checkpoint <= s < y.stored :: SectionCanonical(x, s, chain, size))
            && (forall s | y.stored <= s < x.stored :: !SectionCanonical(x, s, chain, size))
    decreases x.stored
  {
    var chain := CanonicalOf(h);
    if x.stored > x.checkpoint {
      var last := x.stored - 1;
      VerifyStep(x, last, chain, size);
      if SectionCanonical(x, last, chain, size) {
        forall s | x.checkpoint <= s < x.stored ensures SectionCanonical(x, s, chain, size) {
          LastCanonicalMeansAll(x, s, h, size);
        }
      } else {
        var z := SetValid(x, last);
        CutKeepsInv(x, last, size);
        VerifyKeepsLongestPrefix(z, h, size);
        CutKeepsSections(x, last, chain, size);
      }
    }
  }

  // ---------- the indexer object ----------

  class ChainIndexer {
    const sectionSize: nat
    const confirmsReq: nat
    var heads: map<nat, Hash>
    var storedSections: nat
    var knownSections: nat
    var checkpointSections: nat
    var checkpointHead: Hash
    var job: Job

    ghost function Abs(): Indexer
      reads this
    {
      Indexer(heads, storedSections, knownSections, checkpointSections, checkpointHead, job)
    }

    ghost predicate Valid()
      reads this
    {
      sectionSize > 0 && Inv(Abs(), sectionSize)
    }

    constructor (size: nat, confirms: nat)
      requires size > 0
      ensures Valid() && Abs() == Indexer(map[], 0, 0, 0, NoHash, Idle)
    {
      sectionSize, confirmsReq := size, confirms;
      heads, storedSections, knownSections := map[], 0, 0;
      checkpointSections, checkpointHead, job := 0, NoHash, Idle;
    }

    method SetValidSections(sections: nat)
      modifies this`heads, this`storedSections
      ensures Abs() == SetValid(old(Abs()), sections)
    {
      while storedSections > sections
        invariant Abs() == old(Abs()).(stored := storedSections, heads := heads)
        invariant storedSections <= old(storedSections)
        invariant storedSections >= sections || storedSections == old(storedSections)
        invariant heads == map s | s in old(heads) && !(storedSections <= s < old(storedSections)) :: old(heads)[s]
      {
        storedSections := storedSections - 1;
        heads := heads - {storedSections};
      }
      storedSections := sections;
    }

    method VerifyLastHead(chain: map<nat, Hash>)
      requires sectionSize > 0
      modifies this`heads, this`storedSections
      ensures Abs() == VerifyLast(old(Abs()), chain, sectionSize)
    {
      while storedSections > 0 && storedSections > checkpointSections
        invariant VerifyLast(Abs(), chain, sectionSize) == VerifyLast(old(Abs()), chain, sectionSize)
        decreases storedSections
      {
        if At(heads, storedSections - 1) == At(chain, storedSections * sectionSize - 1) {
          return;
        }
        SetValidSections(storedSections - 1);
      }
    }

    method NewHead(head: nat, reorg: bool, chain: map<nat, Hash>)
      requires Valid()
      modifies this
      ensures Abs() == Step(old(Abs()), if reorg then Reorg(head) else Action.NewHead(head, chain), sectionSize,
                            confirmsReq)
      ensures Valid()
    {
      ghost var x := Abs();
      StepKeepsInv(x, if reorg then Reorg(head) else Action.NewHead(head, chain), sectionSize, confirmsReq);
      if reorg {
        var known := (head + 1) / sectionSize;
        var stored := known;
        if known < checkpointSections {
          known := 0;
        }
        if stored < checkpointSections {
          stored := checkpointSections;
        }
        if known < knownSections {
          knownSections := known;
        }
        if stored < storedSections {
          SetValidSections(stored);
        }
      } else if head >= confirmsReq {
        var sections := (head + 1 - confirmsReq) / sectionSize;
        if sections < checkpointSections {
          sections := 0;
        }
        if sections > knownSections {
          if knownSections < checkpointSections && At(chain, checkpointSections * sectionSize - 1) != checkpointHead {
            return;
          }
          knownSections := sections;
        }
      }
    }

    method AddCheckpoint(section: nat, shead: Hash)
      requires Valid() && shead != NoHash
      modifies this
      ensures Abs() == AfterCheckpoint(old(Abs()), section, shead) && Valid()
    {
      CheckpointKeepsInv(Abs(), section, shead, sectionSize);
      if checkpointSections >= section + 1 || section < storedSections {
        return;
      }
      checkpointSections, checkpointHead := section + 1, shead;
      heads := heads[section := shead];
      SetValidSections(section + 1);
    }

    /** The update loop up to the point where it releases the lock. */
    method BeginUpdate(chain: map<nat, Hash>)
      requires Valid()
      modifies this
      ensures Abs() == AfterBegin(old(Abs()), chain, sectionSize) && Valid()
    {
      StepKeepsInv(Abs(), Begin(chain), sectionSize, confirmsReq);
      if job.Idle? && knownSections > storedSections {
        VerifyLastHead(chain);
        job := Busy(storedSections, if storedSections > 0 then At(heads, storedSections - 1) else NoHash);
      }
    }

    /** Walks the headers of a section without the lock, checking each against its predecessor. */
    method ProcessSection(section: nat, oldHead: Hash, db: Reads) returns (r: Option<Hash>)
      ensures r == Process(section, oldHead, db, sectionSize)
      ensures r.Some? ==> LinkedRun(oldHead, r.value, sectionSize, SectionEnd(section, sectionSize))
    {
      var last := oldHead;
      var start, end := section * sectionSize, section * sectionSize + sectionSize;
      ProcessedIsLinked(start, start, end, oldHead, oldHead, db);
      for number := start to end
        invariant ProcessFrom(start, end, oldHead, db) == ProcessFrom(number, end, last, db)
      {
        var header := db(number);
        if header.None? || header.value.number != number {
          return None;
        }
        if header.value.parentHash != last {
          return None;
        }
        last := Digest(header.value);
      }
      r := Some(last);
    }

    /** The update loop from the point where it holds the lock again. */
    method EndUpdate(newHead: Option<Hash>, chain: map<nat, Hash>)
      requires Valid() && job.Busy?
      requires newHead.Some? ==> LinkedRun(job.oldHead, newHead.value, sectionSize,
                                           SectionEnd(job.section, sectionSize))
      modifies this
      ensures Abs() == AfterEnd(old(Abs()), newHead, chain, sectionSize) && Valid()
    {
      EndKeepsInv(Abs(), newHead, chain, sectionSize);
      var section, oldHead := job.section, job.oldHead;
      job := Idle;
      if newHead.Some? && (section == 0 || oldHead == At(heads, section - 1)) {
        heads := heads[section := newHead.value];
        SetValidSections(section + 1);
      } else {
        VerifyLastHead(chain);
        knownSections := storedSections;
      }
    }
  }
}
