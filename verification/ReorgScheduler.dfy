/** The loop that schedules the pool's maintenance runs.  Requests to reset or to promote are collected
    while a run is active; the next run takes all of them at once.  A requester gets the completion
    channel of the run that will serve it.

    The loop and the run it has started are two threads, so the model is a state machine: an action is
    either something the loop receives or the end of the active run.  Channel `i` belongs to run `i`.
 */
module ReorgScheduler {
  import opened Options
  import opened Transactions
  import opened PoolState

  type Head = nat

  datatype HeadChange = HeadChange(oldHead: Head, newHead: Head)

  datatype Ask =
    | AskReset(change: HeadChange)
    | AskPromote(accounts: set<Address>)

  /** What one run is given to do. */
  datatype Job = Job(reset: Option<HeadChange>, dirty: Option<set<Address>>, events: Lists)

  const IDLE := Job(None, None, map[])

  /** An answered request: the requester waits on channel `chan`. */
  datatype Ticket = Ticket(ask: Ask, chan: nat)

  /** A transaction event accepted for the run `chan`. */
  datatype Announced = Announced(tx: Tx, chan: nat)

  datatype Phase = Running | Stopping | Stopped

  /** `active` tells whether the last started run has not been seen to end; `todo` is collected for the
      next one.  `asks` and `sent` record what was accepted. */
  datatype Scheduler = Scheduler(runs: seq<Job>, active: bool, launch: bool, todo: Job, closed: set<nat>, phase: Phase,
                                 asks: seq<Ticket>, sent: seq<Announced>)

  datatype Action =
    | Request(ask: Ask)
    | Announce(tx: Tx)
    | RunEnds     // the active run closes its channel
    | NoticeEnd   // the loop receives from it
    | Shutdown
    | Drain       // a stopping loop receives from it

  const START := Scheduler([], false, false, IDLE, {}, Running, [], [])

  function Merge(job: Job, ask: Ask): Job {
    match ask
    case AskReset(change) =>
      job.(reset := Some(if job.reset.None? then change else HeadChange(job.reset.value.oldHead, change.newHead)))
    case AskPromote(accounts) =>
      job.(dirty := Some(if job.dirty.None? then accounts else job.dirty.value + accounts))
  }

  function WithEvent(job: Job, tx: Tx): Job {
    job.(events := SetOf(job.events, tx.from, Of(job.events, tx.from)[tx.nonce := tx]))
  }

  /** Starts the next run if one is wanted and none is active; a loop that has returned does not. */
  function Launch(s: Scheduler): Scheduler {
    if s.launch && !s.active && s.phase.Running? then s.(runs := s.runs + [s.todo], active := true, launch := false, todo := IDLE) else s
  }

  predicate Enabled(s: Scheduler, a: Action) {
    match a
    case Request(_) => s.phase.Running?
    case Announce(_) => s.phase.Running?
    case RunEnds => s.active && s.runs != [] && |s.runs| - 1 !in s.closed
    case NoticeEnd => s.phase.Running? && s.active && s.runs != [] && |s.runs| - 1 in s.closed
    case Shutdown => s.phase.Running?
    case Drain => s.phase.Stopping? && (s.active ==> |s.runs| - 1 in s.closed)
  }

  function Step(s: Scheduler, a: Action): Scheduler {
    if !Enabled(s, a) then s
    else
      match a
      case Request(ask) => Launch(s.(todo := Merge(s.todo, ask), launch := true,
                                     asks := s.asks + [Ticket(ask, |s.runs|)]))
      case Announce(tx) => s.(todo := WithEvent(s.todo, tx), sent := s.sent + [Announced(tx, |s.runs|)])
      case RunEnds => s.(closed := s.closed + {|s.runs| - 1})
      case NoticeEnd => Launch(s.(active := false))
      case Shutdown => s.(phase := Stopping)
      case Drain => s.(active := false, closed := s.closed + {|s.runs|}, phase := Stopped)
  }

  function Run(s: Scheduler, actions: seq<Action>): Scheduler {
    if actions == [] then s else Step(Run(s, actions[..|actions| - 1]), actions[|actions| - 1])
  }

  // ---------- what each run is given ----------

  /** All requests answered with channel `c`, merged in order. */
  ghost function Asked(asks: seq<Ticket>, c: nat): Job {
    if asks == [] then IDLE
    else
      var before, t := Asked(asks[..|asks| - 1], c), asks[|asks| - 1];
      if t.chan == c then Merge(before, t.ask) else before
  }

  /** All events accepted for run `c`. */
  ghost function Events(sent: seq<Announced>, c: nat): Lists {
    if sent == [] then map[]
    else
      var before, e := Events(sent[..|sent| - 1], c), sent[|sent| - 1];
      if e.chan == c then WithEvent(Job(None, None, before), e.tx).events else before
  }

  ghost function JobOf(s: Scheduler, c: nat): Job {
    Asked(s.asks, c).(events := Events(s.sent, c))
  }

  /** Every run got exactly what was accepted for it, and the next one will. */
  ghost predicate JobsOk(s: Scheduler) {
    && (forall i | 0 <= i < |s.runs| :: s.runs[i] == JobOf(s, i))
    && s.todo == JobOf(s, |s.runs|)
    && (forall t <- s.asks :: t.chan <= |s.runs|)
    && (forall e <- s.sent :: e.chan <= |s.runs|)
    && InOrder(s.asks)
  }

  /** Every run but the last has ended; only shutdown closes a channel without a run. */
  ghost predicate ChannelsOk(s: Scheduler) {
    && (forall i: nat :: i in s.closed ==> i < |s.runs| || (s.phase.Stopped? && i == |s.runs|))
    && (forall i: nat | i < |s.runs| :: i in s.closed || (s.active && i == |s.runs| - 1))
    && (s.active ==> s.runs != [])
    && (s.phase.Stopped? ==> |s.runs| in s.closed && !s.active)
  }

  /** A wanted run waits only for the active one. */
  ghost predicate LaunchOk(s: Scheduler) {
    && (s.launch && s.phase.Running? ==> s.active)
    && (s.launch <==> s.todo.reset.Some? || s.todo.dirty.Some?)
  }

  ghost predicate Inv(s: Scheduler) {
    JobsOk(s) && ChannelsOk(s) && LaunchOk(s)
  }

  ghost predicate InOrder(asks: seq<Ticket>) {
    forall i, j | 0 <= i < j < |asks| :: asks[i].chan <= asks[j].chan
  }

  lemma AskedElsewhere(asks: seq<Ticket>, t: Ticket, c: nat)
    ensures Asked(asks + [t], c) == if t.chan == c then Merge(Asked(asks, c), t.ask) else Asked(asks, c)
  {
    assert (asks + [t])[..|asks|] == asks;
  }

  lemma EventsElsewhere(sent: seq<Announced>, e: Announced, c: nat)
    ensures Events(sent + [e], c) == if e.chan == c then WithEvent(Job(None, None, Events(sent, c)), e.tx).events else Events(sent, c)
  {
    assert (sent + [e])[..|sent|] == sent;
  }

  /** Nothing has been accepted yet for a run further ahead. */
  lemma {:induction false} NothingAhead(asks: seq<Ticket>, c: nat)
    requires forall t <- asks :: t.chan < c
    ensures Asked(asks, c) == IDLE
    decreases |asks|
  {
    if asks != [] {
      var t := asks[|asks| - 1];
      assert t in asks;
      NothingAhead(asks[..|asks| - 1], c);
    }
  }

  lemma {:induction false} NoEventAhead(sent: seq<Announced>, c: nat)
    requires forall e <- sent :: e.chan < c
    ensures Events(sent, c) == map[]
    decreases |sent|
  {
    if sent != [] {
      var e := sent[|sent| - 1];
      assert e in sent;
      NoEventAhead(sent[..|sent| - 1], c);
    }
  }

  // ---------- every step keeps the invariant ----------

  lemma LaunchKeepsJobs(s: Scheduler)
    requires JobsOk(s)
    ensures JobsOk(Launch(s))
  {
    NothingAhead(s.asks, |s.runs| + 1);
    NoEventAhead(s.sent, |s.runs| + 1);
  }

  lemma RequestKeepsJobs(s: Scheduler, ask: Ask)
    requires JobsOk(s)
    ensures JobsOk(s.(todo := Merge(s.todo, ask), launch := true, asks := s.asks + [Ticket(ask, |s.runs|)]))
  {
    var t := Ticket(ask, |s.runs|);
    forall c ensures Asked(s.asks + [t], c) == if c == |s.runs| then Merge(Asked(s.asks, c), ask) else Asked(s.asks, c) {
      AskedElsewhere(s.asks, t, c);
    }
  }

  lemma AnnounceKeepsJobs(s: Scheduler, tx: Tx)
    requires JobsOk(s)
    ensures JobsOk(s.(todo := WithEvent(s.todo, tx), sent := s.sent + [Announced(tx, |s.runs|)]))
  {
    var e := Announced(tx, |s.runs|);
    forall c ensures Events(s.sent + [e], c) ==
                     if c == |s.runs| then WithEvent(Job(None, None, Events(s.sent, c)), tx).events else Events(s.sent, c)
    {
      EventsElsewhere(s.sent, e, c);
    }
  }

  lemma StepKeepsJobs(s: Scheduler, a: Action)
    requires JobsOk(s)
    ensures JobsOk(Step(s, a))
  {
    if Enabled(s, a) {
      match a
      case Request(ask) =>
        RequestKeepsJobs(s, ask);
        LaunchKeepsJobs(s.(todo := Merge(s.todo, ask), launch := true, asks := s.asks + [Ticket(ask, |s.runs|)]));
      case Announce(tx) =>
        AnnounceKeepsJobs(s, tx);
      case NoticeEnd =>
        LaunchKeepsJobs(s.(active := false));
      case _ =>
    }
  }

  lemma StepKeepsChannels(s: Scheduler, a: Action)
    requires ChannelsOk(s) && LaunchOk(s)
    ensures ChannelsOk(Step(s, a)) && LaunchOk(Step(s, a))
  {
  }

  lemma StepKeepsInv(s: Scheduler, a: Action)
    requires Inv(s)
    ensures Inv(Step(s, a))
  {
    StepKeepsJobs(s, a);
    StepKeepsChannels(s, a);
  }

  /** Whatever happens, every run is given exactly the requests answered with its channel and the events
      accepted for it, and runs follow one another. */
  lemma {:induction false} RunsKeepInv(actions: seq<Action>)
    ensures Inv(Run(START, actions))
    decreases |actions|
  {
    if actions != [] {
      RunsKeepInv(actions[..|actions| - 1]);
      StepKeepsInv(Run(START, actions[..|actions| - 1]), actions[|actions| - 1]);
    }
  }

  // ---------- what requesters may rely on ----------

  /** The run does what was asked: it resets, or it promotes at least these accounts. */
  ghost predicate Serves(job: Job, ask: Ask) {
    match ask
    case AskReset(_) => job.reset.Some?
    case AskPromote(accounts) => job.dirty.Some? && accounts <= job.dirty.value
  }

  lemma {:induction false} AskedServes(asks: seq<Ticket>, t: Ticket)
    requires t in asks
    ensures Serves(Asked(asks, t.chan), t.ask)
    decreases |asks|
  {
    var last, rest := asks[|asks| - 1], asks[..|asks| - 1];
    if t in rest {
      AskedServes(rest, t);
    } else {
      assert t == last;
    }
  }

  /** A requester's channel is closed only once a run that does what it asked has ended, or at shutdown. */
  lemma ClosedMeansServed(actions: seq<Action>, t: Ticket)
    requires var s := Run(START, actions); t in s.asks && t.chan in s.closed
    ensures var s := Run(START, actions);
            if t.chan < |s.runs| then Serves(s.runs[t.chan], t.ask) else s.phase.Stopped?
  {
    RunsKeepInv(actions);
    AskedServes(Run(START, actions).asks, t);
  }

  /** At most one run is active: before a run starts, all earlier ones have ended. */
  lemma OneRunAtATime(actions: seq<Action>, i: nat, j: nat)
    requires var s := Run(START, actions); i < j < |s.runs|
    ensures i in Run(START, actions).closed
  {
    RunsKeepInv(actions);
  }

  /** Nobody waits for nothing: an open channel belongs to the active run or to one that starts as soon
      as the active one is seen to end; after shutdown all channels are closed. */
  lemma NobodyIsForgotten(actions: seq<Action>, t: Ticket)
    requires t in Run(START, actions).asks && t.chan !in Run(START, actions).closed
    ensures var s := Run(START, actions);
            && s.active && !s.phase.Stopped?
            && (t.chan == |s.runs| - 1 || (t.chan == |s.runs| && s.launch && Serves(s.todo, t.ask)))
  {
    RunsKeepInv(actions);
    AskedServes(Run(START, actions).asks, t);
  }

  /** Once the active run has ended, the loop starts the next one with everything collected so far. */
  lemma EndStartsNext(actions: seq<Action>, t: Ticket)
    requires var s := Run(START, actions); t in s.asks && t.chan == |s.runs| && s.phase.Running?
    ensures var s, s' := Run(START, actions), Run(START, actions + [RunEnds, NoticeEnd]);
            s'.runs == s.runs + [s.todo] && Serves(s'.runs[t.chan], t.ask) && s'.active
  {
    var s := Run(START, actions);
    RunsKeepInv(actions);
    AskedServes(s.asks, t);
    var two := actions + [RunEnds, NoticeEnd];
    assert two[..|two| - 1] == actions + [RunEnds];
    assert (actions + [RunEnds])[..|actions|] == actions;
    var s1 := Step(s, RunEnds);
    assert Run(START, actions + [RunEnds]) == s1;
    assert |s1.runs| - 1 in s1.closed;
  }

  // ---------- resets telescope ----------

  /** The head that the requests lead to. */
  ghost function HeadAfter(h: Head, asks: seq<Ticket>): Head {
    if asks == [] then h
    else match asks[|asks| - 1].ask
      case AskReset(change) => change.newHead
      case AskPromote(_) => HeadAfter(h, asks[..|asks| - 1])
  }

  /** Each requested reset starts from the head the previous one led to. */
  ghost predicate Chained(h: Head, asks: seq<Ticket>) {
    forall i | 0 <= i < |asks| :: asks[i].ask.AskReset? ==> asks[i].ask.change.oldHead == HeadAfter(h, asks[..i])
  }

  /** The head that the first `c` runs lead to. */
  ghost function HeadAfterRuns(h: Head, asks: seq<Ticket>, c: nat): Head {
    if c == 0 then h
    else
      var reset := Asked(asks, c - 1).reset;
      if reset.Some? then reset.value.newHead else HeadAfterRuns(h, asks, c - 1)
  }

  ghost predicate RunsChained(h: Head, asks: seq<Ticket>, c: nat) {
    forall i: nat | i < c :: var reset := Asked(asks, i).reset; reset.Some? ==> reset.value.oldHead == HeadAfterRuns(h, asks, i)
  }

  /** A request leaves the runs before its own alone. */
  lemma {:induction false} HeadBefore(h: Head, asks: seq<Ticket>, t: Ticket, c: nat)
    requires c <= t.chan
    ensures HeadAfterRuns(h, asks + [t], c) == HeadAfterRuns(h, asks, c)
    decreases c
  {
    if c > 0 {
      AskedElsewhere(asks, t, c - 1);
      HeadBefore(h, asks, t, c - 1);
    }
  }

  lemma {:induction false} QuietAhead(h: Head, asks: seq<Ticket>, lo: nat, c: nat)
    requires lo <= c && forall t <- asks :: t.chan < lo
    ensures HeadAfterRuns(h, asks, c) == HeadAfterRuns(h, asks, lo)
    decreases c
  {
    if lo < c {
      NothingAhead(asks, c - 1);
      QuietAhead(h, asks, lo, c - 1);
    }
  }

  /** Coalesced resets lead through the same heads as the requests: each run starts where the one before
      left off, and the last one ends at the head requested last. */
  lemma {:induction false} ResetsTelescope(h: Head, asks: seq<Ticket>, c: nat)
    requires Chained(h, asks) && InOrder(asks) && forall t <- asks :: t.chan <= c
    ensures RunsChained(h, asks, c + 1) && HeadAfterRuns(h, asks, c + 1) == HeadAfter(h, asks)
    decreases |asks|
  {
    if asks == [] {
      QuietAhead(h, asks, 0, c + 1);
    } else {
      var rest, t := asks[..|asks| - 1], asks[|asks| - 1];
      assert t in asks && asks == rest + [t];
      RestChained(h, asks);
      ResetsTelescope(h, rest, t.chan);
      TelescopeStep(h, rest, t, c);
    }
  }

  lemma RestChained(h: Head, asks: seq<Ticket>)
    requires asks != [] && Chained(h, asks) && InOrder(asks)
    ensures var rest, t := asks[..|asks| - 1], asks[|asks| - 1];
            && Chained(h, rest) && InOrder(rest) && (forall u <- rest :: u.chan <= t.chan)
            && (t.ask.AskReset? ==> t.ask.change.oldHead == HeadAfter(h, rest))
  {
    var rest := asks[..|asks| - 1];
    forall i | 0 <= i < |rest| ensures rest[..i] == asks[..i] {
    }
  }

  lemma TelescopeStep(h: Head, rest: seq<Ticket>, t: Ticket, c: nat)
    requires t.chan <= c && (forall u <- rest :: u.chan <= t.chan)
    requires t.ask.AskReset? ==> t.ask.change.oldHead == HeadAfter(h, rest)
    requires RunsChained(h, rest, t.chan + 1) && HeadAfterRuns(h, rest, t.chan + 1) == HeadAfter(h, rest)
    ensures RunsChained(h, rest + [t], c + 1) && HeadAfterRuns(h, rest + [t], c + 1) == HeadAfter(h, rest + [t])
  {
    var asks, k := rest + [t], t.chan;
    assert asks[..|rest|] == rest;
    AskedElsewhere(rest, t, k);
    HeadBefore(h, rest, t, k);
    assert HeadAfterRuns(h, asks, k + 1) == HeadAfter(h, asks);
    QuietAhead(h, asks, k + 1, c + 1);
    forall i: nat | i < c + 1
      ensures var reset := Asked(asks, i).reset; reset.Some? ==> reset.value.oldHead == HeadAfterRuns(h, asks, i)
    {
      if i <= k {
        AskedElsewhere(rest, t, i);
        HeadBefore(h, rest, t, i);
      } else {
        NothingAhead(asks, i);
      }
    }
  }

  /** The head that a sequence of runs leads to. */
  ghost function HeadAfterJobs(h: Head, runs: seq<Job>): Head {
    if runs == [] then h
    else
      var reset := runs[|runs| - 1].reset;
      if reset.Some? then reset.value.newHead else HeadAfterJobs(h, runs[..|runs| - 1])
  }

  lemma {:induction false} JobsFollowAsks(h: Head, s: Scheduler, i: nat)
    requires JobsOk(s) && i <= |s.runs|
    ensures HeadAfterJobs(h, s.runs[..i]) == HeadAfterRuns(h, s.asks, i)
    decreases i
  {
    if i > 0 {
      assert s.runs[..i][..i - 1] == s.runs[..i - 1];
      JobsFollowAsks(h, s, i - 1);
    }
  }

  /** If the chain requests its resets head to head, then so does the pool execute them: every run starts
      from the head where the runs before it ended, and what is still collected ends at the last one. */
  lemma RunsTelescope(actions: seq<Action>, h: Head)
    requires Chained(h, Run(START, actions).asks)
    ensures var s := Run(START, actions);
            && (forall i | 0 <= i < |s.runs| ::
                  s.runs[i].reset.Some? ==> s.runs[i].reset.value.oldHead == HeadAfterJobs(h, s.runs[..i]))
            && (s.todo.reset.Some? ==> s.todo.reset.value.oldHead == HeadAfterJobs(h, s.runs))
            && HeadAfterJobs(h, s.runs + [s.todo]) == HeadAfter(h, s.asks)
  {
    var s := Run(START, actions);
    RunsKeepInv(actions);
    ResetsTelescope(h, s.asks, |s.runs|);
    forall i | 0 <= i <= |s.runs| ensures HeadAfterJobs(h, s.runs[..i]) == HeadAfterRuns(h, s.asks, i) {
      JobsFollowAsks(h, s, i);
    }
    assert s.runs[..|s.runs|] == s.runs && (s.runs + [s.todo])[..|s.runs|] == s.runs;
  }

  // ---------- the loop itself ----------

  lemma RunSnoc(actions: seq<Action>, i: nat)
    requires i < |actions|
    ensures Run(START, actions[..i + 1]) == Step(Run(START, actions[..i]), actions[i])
  {
    assert actions[..i + 1][..i] == actions[..i];
  }

  /** The loop with its local variables, fed with what it receives. */
  method ScheduleReorgLoop(actions: seq<Action>) returns (final: Scheduler)
    ensures final == Run(START, actions)
  {
    var curDone: Option<nat>, nextDone: nat, launchNextRun := None, 0, false;
    var todo, runs: seq<Job>, closed: set<nat>, phase := IDLE, [], {}, Running;
    var asks: seq<Ticket>, sent: seq<Announced> := [], [];
    for i := 0 to |actions|
      invariant nextDone == |runs| && (curDone.Some? ==> runs != [] && curDone.value == |runs| - 1)
      invariant Run(START, actions[..i]) == Launch(Scheduler(runs, curDone.Some?, launchNextRun, todo, closed, phase,
                                                             asks, sent))
    {
      if phase == Running && curDone.None? && launchNextRun {
        runs := runs + [todo];
        curDone, nextDone, launchNextRun, todo := Some(nextDone), nextDone + 1, false, IDLE;
      }
      RunSnoc(actions, i);
      LaunchedIsStable(actions[..i], Scheduler(runs, curDone.Some?, launchNextRun, todo, closed, phase, asks, sent),
                       actions[i]);
      match actions[i]
      case Request(ask) =>
        if phase == Running {
          todo, launchNextRun := Merge(todo, ask), true;
          asks := asks + [Ticket(ask, nextDone)];
        }
      case Announce(tx) =>
        if phase == Running {
          todo := WithEvent(todo, tx);
          sent := sent + [Announced(tx, nextDone)];
        }
      case RunEnds =>
        if curDone.Some? && curDone.value !in closed {
          closed := closed + {curDone.value};
        }
      case NoticeEnd =>
        if phase == Running && curDone.Some? && curDone.value in closed {
          curDone := None;
        }
      case Shutdown =>
        if phase == Running {
          phase := Stopping;
        }
      case Drain =>
        if phase == Stopping && (curDone.Some? ==> curDone.value in closed) {
          curDone, closed, phase := None, closed + {nextDone}, Stopped;
        }
    }
    if phase == Running && curDone.None? && launchNextRun {
      runs := runs + [todo];
      curDone, nextDone, launchNextRun, todo := Some(nextDone), nextDone + 1, false, IDLE;
    }
    assert actions[..|actions|] == actions;
    final := Scheduler(runs, curDone.Some?, launchNextRun, todo, closed, phase, asks, sent);
  }

  /** A state reached by the loop has no run to start, whatever it receives next that is not a request or
      the end of a run. */
  lemma LaunchedIsStable(actions: seq<Action>, s: Scheduler, a: Action)
    requires s == Run(START, actions)
    ensures !a.Request? && !a.NoticeEnd? ==> Launch(Step(s, a)) == Step(s, a)
    ensures Launch(s) == s
  {
    RunsKeepInv(actions);
  }
}
