/**
 * What becomes of single deliveries in the watcher's runs: logs the saturated subscription drops,
 * and logs the node reports as removed.
 */
module Deliveries {
  import opened Common
  import opened Events
  import opened ChainSync
  import opened Chain
  import opened Handlers

  /** Nobody has recorded the key, holds it or is about to be handed it, and nothing is being rolled back. */
  ghost predicate Unheld(s: State, key: Key) {
    && !Recorded(s.events, key)
    && (forall t <- s.threads :: t.log.key != key && !t.log.removed && !t.pc.Rewind? && !t.pc.Purge?)
    && (s.poller.Feeding? ==> forall l <- s.poller.rest :: l.key != key && !l.removed)
  }

  /** The cursor has passed an unheld key, and no range that includes it is being asked for. */
  ghost predicate Passed(s: State, key: Key) {
    && Unheld(s, key) && key.block <= s.cursor
    && (s.poller.Asking? ==> s.poller.from > key.block)
  }

  /** The key is not delivered again, the node answers within the range asked, nothing is reorganised or restarted. */
  ghost predicate NoSecondChance(s: State, key: Key, a: Action) {
    match a
    case Deliver(l) => l.key != key && !l.removed
    case PollStep(logs, _) =>
      forall l <- logs :: !l.removed && (s.poller.Asking? ==> s.poller.from <= l.key.block <= s.poller.to)
    case Restart(_, _) => false
    case _ => true
  }

  ghost predicate NeverAgain(e: Env, s: State, key: Key, actions: seq<Action>)
    decreases |actions|
  {
    actions == [] || (NoSecondChance(s, key, actions[0]) && NeverAgain(e, Do(e, s, actions[0]), key, actions[1..]))
  }

  lemma UnheldTick(e: Env, s: State, key: Key, i: nat, ok: bool)
    requires Unheld(s, key) && i < |s.threads|
    ensures Unheld(DoTick(e, s, i, ok), key) && s.cursor <= DoTick(e, s, i, ok).cursor
  {
    var t, s' := s.threads[i], DoTick(e, s, i, ok);
    assert t in s.threads;
    if t.pc.Record? && t.log.event.Some? {
      RecordedUpsert(s.events, EventRow(t.log.key, t.log.event.value));
    }
    hide Recorded, Upsert;
    forall x <- s'.threads ensures x.log.key != key && !x.log.removed && !x.pc.Rewind? && !x.pc.Purge? {
      assert x == s'.threads[i] || x in s.threads;
    }
  }

  /** A spawned handler of another log. */
  lemma UnheldSpawn(s: State, key: Key, t: Thread, poller: Poller)
    requires Unheld(s, key) && t.log.key != key && !t.log.removed && t.pc == Check
    requires poller.Feeding? ==> forall l <- poller.rest :: l.key != key && !l.removed
    ensures Unheld(s.(threads := s.threads + [t], poller := poller), key)
  {
    hide Recorded;
  }

  lemma UnheldStep(e: Env, s: State, key: Key, a: Action)
    requires Unheld(s, key) && !a.Restart?
    requires a.Deliver? ==> a.l.key != key && !a.l.removed
    requires a.PollStep? && s.poller.Asking? ==> forall l <- a.logs :: l.key != key && !l.removed
    ensures Unheld(Do(e, s, a), key) && s.cursor <= Do(e, s, a).cursor
  {
    hide Recorded;
    match a
    case Tick(i, ok) => if i < |s.threads| { UnheldTick(e, s, key, i, ok); }
    case Deliver(l) => UnheldSpawn(s, key, Thread(l, Check, true), s.poller);
    case PollStep(logs, ok) =>
      if s.poller.Feeding? && s.poller.waiting.None? && s.poller.rest != [] {
        var rest := s.poller.rest;
        UnheldSpawn(s, key, Thread(rest[0], Check, false), Feeding(s.poller.to, rest[1..], Some(|s.threads|)));
      }
    case _ =>
  }

  lemma PassedStep(e: Env, s: State, key: Key, a: Action)
    requires Safe(e, s) && Passed(s, key) && NoSecondChance(s, key, a)
    ensures Passed(Do(e, s, a), key)
  {
    UnheldStep(e, s, key, a);
    hide Unheld, DoTick;
  }

  lemma {:induction false} PassedForever(e: Env, s: State, key: Key, actions: seq<Action>)
    requires Safe(e, s) && e.confirmations <= FIRST_SYNC_DEPTH && Passed(s, key)
    requires (forall a <- actions :: InRange(e, a)) && NeverAgain(e, s, key, actions)
    ensures Passed(Run(e, s, actions), key)
    decreases |actions|
  {
    if actions == [] {
    } else {
      StepSafe(e, s, actions[0]);
      PassedStep(e, s, key, actions[0]);
      PassedForever(e, Do(e, s, actions[0]), key, actions[1..]);
    }
  }

  lemma {:induction false} RunAppend(e: Env, s: State, a: seq<Action>, b: seq<Action>)
    ensures Run(e, s, a + b) == Run(e, Run(e, s, a), b)
    decreases |a|
  {
    hide Do;
    if a == [] {
      assert a + b == b;
    } else {
      RunAppend(e, Do(e, s, a[0]), a[1..], b);
      assert (a + b)[1..] == a[1..] + b;
    }
  }

  /**
   * The subscription may lose a log for good: one that arrives while all 64 slots are taken is
   * dropped, and if the others then carry the cursor past its block while nobody holds it, no
   * poll asks for it again, whatever follows short of a redelivery, a reorganisation or a restart.
   */
  lemma DroppedLogIsLost(e: Env, s: State, l: ChainLog, before: seq<Action>, after: seq<Action>)
    requires Safe(e, s) && e.confirmations <= FIRST_SYNC_DEPTH
    requires (forall a <- before :: InRange(e, a)) && (forall a <- after :: InRange(e, a))
    requires Running(s.threads) == MAX_HANDLERS
    requires Passed(Run(e, s, before), l.key) && NeverAgain(e, Run(e, s, before), l.key, after)
    ensures !Recorded(Run(e, s, [Deliver(l)] + before + after).events, l.key)
  {
    AlwaysSafe(e, s, before);
    PassedForever(e, Run(e, s, before), l.key, after);
    RunAppend(e, s, [Deliver(l)] + before, after);
    RunAppend(e, s, [Deliver(l)], before);
    OneAction(e, s, Deliver(l));
  }

  // ----- a run that drops a log and loses it -----

  /** The i-th log of block 10. */
  function BlockLog(i: nat, event: EventData): ChainLog {
    ChainLog(Key(10, 0, i), "0x0a", false, Some(event))
  }

  function AllChecking(n: nat, event: EventData): seq<Thread> {
    seq(n, i requires 0 <= i < n => Thread(BlockLog(i, event), Check, true))
  }

  function Arrivals(n: nat, event: EventData): seq<Action> {
    seq(n, i requires 0 <= i < n => Deliver(BlockLog(i, event)))
  }

  /** Nothing recorded, nothing running, the head at block 16. */
  function Empty(): State {
    State(16, 0, 0, None, [], Resting, [], [], [])
  }

  lemma OneMore(n: nat, event: EventData)
    ensures AllChecking(n + 1, event) == AllChecking(n, event) + [Thread(BlockLog(n, event), Check, true)]
    ensures Arrivals(n + 1, event) == Arrivals(n, event) + [Deliver(BlockLog(n, event))]
  {
  }

  lemma {:induction false} AllRunning(n: nat, event: EventData)
    ensures Running(AllChecking(n, event)) == n
  {
    if n == 0 {
    } else {
      AllRunning(n - 1, event);
      OneMore(n - 1, event);
      hide AllChecking, BlockLog;
      RunningAppend(AllChecking(n - 1, event), Thread(BlockLog(n - 1, event), Check, true));
    }
  }

  lemma {:induction false} SlotsFill(e: Env, event: EventData, n: nat)
    requires n <= MAX_HANDLERS
    ensures Run(e, Empty(), Arrivals(n, event)) == Empty().(threads := AllChecking(n, event))
  {
    if n == 0 {
      assert Empty().threads == AllChecking(0, event);
    } else {
      var l, s := BlockLog(n - 1, event), Empty().(threads := AllChecking(n - 1, event));
      SlotsFill(e, event, n - 1);
      AllRunning(n - 1, event);
      OneMore(n - 1, event);
      hide Running, Arrivals, AllChecking, BlockLog, Empty, Do, Run;
      RunAppend(e, Empty(), Arrivals(n - 1, event), [Deliver(l)]);
      OneAction(e, s, Deliver(l));
      DeliverOne(e, s, l);
    }
  }

  lemma OneAction(e: Env, s: State, a: Action)
    ensures Run(e, s, [a]) == Do(e, s, a)
  {
    hide Do;
    assert [a][1..] == [];
  }

  lemma DeliverOne(e: Env, s: State, l: ChainLog)
    ensures Do(e, s, Deliver(l)) ==
            if Running(s.threads) < MAX_HANDLERS then s.(threads := s.threads + [Thread(l, Check, true)]) else s
  {
  }

  /** After the first of 64 handlers is done with block 10, the cursor has passed the dropped log. */
  lemma FirstHandlerDone(e: Env, event: EventData)
    requires e.confirmations == 6
    ensures var s := Empty().(threads := AllChecking(MAX_HANDLERS, event));
            Passed(Run(e, s, seq(5, _ => Tick(0, true))), BlockLog(MAX_HANDLERS, event).key)
  {
    var s := Empty().(threads := AllChecking(MAX_HANDLERS, event));
    var s' := Ticks(e, s, 0, 5);
    TicksRun(e, s, 0, 5);
    UninterruptedHandler(e, s, 0);
    TicksElsewhere(e, s, 0, 5);
    hide Ticks, Run;
    FirstLogStored(e, event);
    UnheldAfterFirst(s', event);
  }

  lemma FirstLogStored(e: Env, event: EventData)
    ensures var after := AfterLog(Store(0, [], []), BlockLog(0, event), true, e.junk);
            after.cursor == 10 && after.events == [EventRow(BlockLog(0, event).key, event)]
  {
    hide HandleRows;
  }

  lemma UnheldAfterFirst(s: State, event: EventData)
    requires s.events == [EventRow(BlockLog(0, event).key, event)] && s.poller == Resting
    requires |s.threads| == MAX_HANDLERS && s.threads[0].log == BlockLog(0, event) && s.threads[0].pc == Done
    requires forall k :: 0 < k < MAX_HANDLERS ==> s.threads[k] == Thread(BlockLog(k, event), Check, true)
    ensures Unheld(s, BlockLog(MAX_HANDLERS, event).key)
  {
    forall t <- s.threads
      ensures t.log.key != BlockLog(MAX_HANDLERS, event).key && !t.log.removed && !t.pc.Rewind? && !t.pc.Purge?
    {
      var k :| 0 <= k < |s.threads| && s.threads[k] == t;
    }
  }

  /**
   * Such a run, from an empty state: 64 logs of block 10 fill the slots, the next log of the
   * block is dropped, one handler finishes, and the dropped log is never recorded.
   */
  lemma SaturationLoses(event: EventData, junk: string -> int, after: seq<Action>)
    requires forall a <- after :: InRange(Env(6, junk), a)
    requires NeverAgain(Env(6, junk), SaturatedRun(event, junk), BlockLog(MAX_HANDLERS, event).key, after)
    ensures var (e, l) := (Env(6, junk), BlockLog(MAX_HANDLERS, event));
            var full := Arrivals(MAX_HANDLERS, event);
            && Safe(e, Empty()) && Running(Run(e, Empty(), full).threads) == MAX_HANDLERS
            && !Recorded(Run(e, Empty(), full + ([Deliver(l)] + seq(5, _ => Tick(0, true)) + after)).events, l.key)
  {
    var e, l, full := Env(6, junk), BlockLog(MAX_HANDLERS, event), Arrivals(MAX_HANDLERS, event);
    var ticks := seq(5, _ => Tick(0, true));
    var s := Run(e, Empty(), full);
    SlotsFill(e, event, MAX_HANDLERS);
    AllRunning(MAX_HANDLERS, event);
    FirstHandlerDone(e, event);
    FullIsSafe(e, s, event);
    RunAppend(e, Empty(), full, [Deliver(l)] + ticks + after);
    hide Run, Running, Safe, Passed, NeverAgain, Arrivals, AllChecking;
    DroppedLogIsLost(e, s, l, ticks, after);
  }

  /** Where the run of SaturationLoses stands when the first handler is done. */
  function SaturatedRun(event: EventData, junk: string -> int): State {
    Run(Env(6, junk), Run(Env(6, junk), Empty(), Arrivals(MAX_HANDLERS, event)), seq(5, _ => Tick(0, true)))
  }

  lemma FullIsSafe(e: Env, s: State, event: EventData)
    requires e.confirmations == 6 && s == Empty().(threads := AllChecking(MAX_HANDLERS, event))
    requires Running(s.threads) == MAX_HANDLERS
    ensures Safe(e, s) && Safe(e, Empty())
  {
    assert Empty().threads == [];
  }

  // ----- exactly when a dropped log is recorded after all -----

  /** The poller is asking for a range that includes the block of the key. */
  predicate Covers(s: State, key: Key) {
    s.poller.Asking? && s.poller.from <= key.block <= s.poller.to
  }

  /** Some state of the run has a poll that read the cursor below the block and asks up to it or beyond. */
  ghost predicate AskedFor(e: Env, s: State, key: Key, actions: seq<Action>)
    decreases |actions|
  {
    Covers(s, key) || (actions != [] && AskedFor(e, Do(e, s, actions[0]), key, actions[1..]))
  }

  /**
   * Nothing fails, is reorganised or restarted, the key is not delivered again, and the node
   * answers a poll with exactly the logs the chain has in the range.
   */
  ghost predicate Calm(s: State, chain: seq<ChainLog>, key: Key, a: Action) {
    match a
    case Deliver(l) => l.key != key && !l.removed
    case Tick(_, ok) => ok
    case PollStep(logs, ok) =>
      ok && (s.poller.Asking? ==> forall l :: l in logs <==> l in chain && s.poller.from <= l.key.block <= s.poller.to)
    case Restart(_, _) => false
    case _ => true
  }

  ghost predicate AllCalm(e: Env, s: State, chain: seq<ChainLog>, key: Key, actions: seq<Action>)
    decreases |actions|
  {
    actions == [] || (Calm(s, chain, key, actions[0]) && AllCalm(e, Do(e, s, actions[0]), chain, key, actions[1..]))
  }

  ghost predicate NothingRemoved(s: State) {
    && (forall t <- s.threads :: !t.log.removed && !t.pc.Rewind? && !t.pc.Purge?)
    && (s.poller.Feeding? ==> forall l <- s.poller.rest :: !l.removed)
  }

  /** A handler on its way to record the key. */
  ghost predicate Recording(t: Thread, key: Key) {
    t.log.key == key && t.log.event.Some? && (t.pc.Check? || t.pc.Wait? || t.pc.Record?)
  }

  /** The key is recorded, or something that will record it is under way. */
  ghost predicate Chased(s: State, key: Key) {
    || Recorded(s.events, key)
    || Covers(s, key)
    || (s.poller.Feeding? && exists l <- s.poller.rest :: l.key == key && l.event.Some?)
    || exists t <- s.threads :: Recording(t, key)
  }

  /** Only the one log of the chain has the key, and it is one of ours. */
  ghost predicate OneLog(chain: seq<ChainLog>, key: Key) {
    (exists l <- chain :: l.key == key) && forall l <- chain :: !l.removed && (l.key == key ==> l.event.Some?)
  }

  lemma CalmNothingRemoved(e: Env, s: State, chain: seq<ChainLog>, key: Key, a: Action)
    requires NothingRemoved(s) && Calm(s, chain, key, a) && OneLog(chain, key)
    ensures NothingRemoved(Do(e, s, a))
  {
    hide Recorded, Upsert;
    match a
    case Tick(i, ok) =>
      if i < |s.threads| {
        var s' := DoTick(e, s, i, ok);
        assert s.threads[i] in s.threads;
        forall x <- s'.threads ensures !x.log.removed && !x.pc.Rewind? && !x.pc.Purge? {
          assert x == s'.threads[i] || x in s.threads;
        }
      }
    case _ =>
  }

  lemma ChasedTick(e: Env, s: State, key: Key, i: nat)
    requires NothingRemoved(s) && Chased(s, key) && i < |s.threads|
    ensures Chased(DoTick(e, s, i, true), key)
  {
    var t, s' := s.threads[i], DoTick(e, s, i, true);
    assert t in s.threads && s'.threads[i] in s'.threads;
    if t.pc.Record? && t.log.event.Some? {
      RecordedUpsert(s.events, EventRow(t.log.key, t.log.event.value));
    }
    hide Recorded, Upsert;
    if exists x <- s.threads :: Recording(x, key) {
      var k :| 0 <= k < |s.threads| && Recording(s.threads[k], key);
      assert k != i ==> s'.threads[k] == s.threads[k] && s'.threads[k] in s'.threads;
    }
  }

  lemma ChasedPoll(e: Env, s: State, chain: seq<ChainLog>, key: Key, logs: seq<ChainLog>)
    requires Chased(s, key) && Calm(s, chain, key, PollStep(logs, true)) && OneLog(chain, key)
    ensures Chased(DoPoll(e, s, logs, true), key)
  {
    hide Recorded, Running;
    var s' := DoPoll(e, s, logs, true);
    assert forall t <- s.threads :: t in s'.threads;
    if Covers(s, key) {
      var l :| l in chain && l.key == key;
      assert l in logs;
    } else if s.poller.Feeding? && exists l <- s.poller.rest :: l.key == key && l.event.Some? {
      var l :| l in s.poller.rest && l.key == key && l.event.Some?;
      if s.poller.waiting.None? {
        if l == s.poller.rest[0] {
          assert s'.threads[|s.threads|] in s'.threads;
        } else {
          assert l in s.poller.rest[1..];
        }
      }
    }
  }

  lemma ChasedStep(e: Env, s: State, chain: seq<ChainLog>, key: Key, a: Action)
    requires NothingRemoved(s) && Chased(s, key) && Calm(s, chain, key, a) && OneLog(chain, key)
    ensures Chased(Do(e, s, a), key)
  {
    match a
    case Tick(i, ok) => if i < |s.threads| { ChasedTick(e, s, key, i); }
    case PollStep(logs, ok) => ChasedPoll(e, s, chain, key, logs);
    case Deliver(l) => ChasedGrown(s, key, Do(e, s, a));
    case _ =>
  }

  lemma ChasedGrown(s: State, key: Key, s': State)
    requires Chased(s, key) && s'.events == s.events && s'.poller == s.poller && forall t <- s.threads :: t in s'.threads
    ensures Chased(s', key)
  {
    hide Recorded;
  }

  lemma {:induction false} ChasedIsRecorded(e: Env, s: State, chain: seq<ChainLog>, key: Key, actions: seq<Action>)
    requires NothingRemoved(s) && OneLog(chain, key) && AllCalm(e, s, chain, key, actions)
    requires Chased(s, key) || AskedFor(e, s, key, actions)
    requires AllDone(Run(e, s, actions)) && Run(e, s, actions).poller == Resting
    ensures Recorded(Run(e, s, actions).events, key)
    decreases |actions|
  {
    if actions == [] {
    } else {
      CalmNothingRemoved(e, s, chain, key, actions[0]);
      if Chased(s, key) {
        ChasedStep(e, s, chain, key, actions[0]);
      }
      hide NothingRemoved, OneLog, Calm, Do;
      ChasedIsRecorded(e, Do(e, s, actions[0]), chain, key, actions[1..]);
    }
  }

  lemma {:induction false} NeverAskedFor(e: Env, s: State, chain: seq<ChainLog>, key: Key, actions: seq<Action>)
    requires Unheld(s, key) && OneLog(chain, key) && AllCalm(e, s, chain, key, actions) && !AskedFor(e, s, key, actions)
    ensures !Recorded(Run(e, s, actions).events, key)
    decreases |actions|
  {
    if actions == [] {
    } else {
      UnheldStep(e, s, key, actions[0]);
      hide Unheld, OneLog, Calm, Do;
      NeverAskedFor(e, Do(e, s, actions[0]), chain, key, actions[1..]);
    }
  }

  /**
   * When a dropped log is made up for. In a run without failures, redelivery, reorganisation or
   * restart that ends with every handler done and the poller at rest, the log is recorded
   * exactly when some poll read the cursor below its block and asked for a range that reaches it.
   */
  lemma DroppedRecordedIff(e: Env, chain: seq<ChainLog>, s: State, l: ChainLog, actions: seq<Action>)
    requires Running(s.threads) == MAX_HANDLERS && Unheld(s, l.key)
    requires ValidChain(chain) && l in chain && l.event.Some?
    requires AllCalm(e, s, chain, l.key, actions)
    requires AllDone(Run(e, s, actions)) && Run(e, s, actions).poller == Resting
    ensures Recorded(Run(e, s, [Deliver(l)] + actions).events, l.key) <==> AskedFor(e, s, l.key, actions)
  {
    RunAppend(e, s, [Deliver(l)], actions);
    OneAction(e, s, Deliver(l));
    forall x <- chain ensures x.key == l.key ==> x == l {
      if x != l {
        DistinctKeys(chain, x, l);
      }
    }
    assert OneLog(chain, l.key);
    hide Recorded, AskedFor, AllCalm, Run, OneLog;
    if AskedFor(e, s, l.key, actions) {
      ChasedIsRecorded(e, s, chain, l.key, actions);
    } else {
      NeverAskedFor(e, s, chain, l.key, actions);
    }
  }

  // ----- removed logs -----

  /**
   * The delivery of a removed, confirmed log to an otherwise idle watcher: nothing at all happens
   * when its key is recorded, and a rollback exactly when it is not.
   */
  lemma RemovedDelivery(e: Env, s: State, l: ChainLog)
    requires l.removed && l.event.Some? && Running(s.threads) < MAX_HANDLERS
    requires s.head >= Add64(l.key.block, e.confirmations)
    ensures |Do(e, s, Deliver(l)).threads| == |s.threads| + 1
    ensures var s' := Ticks(e, Do(e, s, Deliver(l)), |s.threads|, 5);
            var before := Store(s.cursor, s.events, s.book);
            && s'.threads[|s.threads|].pc == Done
            && Store(s'.cursor, s'.events, s'.book)
               == if Recorded(s.events, l.key) then before else AfterReorg(before, l.key.block)
  {
    UninterruptedHandler(e, Do(e, s, Deliver(l)), |s.threads|);
    hide Ticks, Recorded, AfterReorg;
  }

  predicate IsTick(a: Action, i: nat) {
    a.Tick? && a.i == i
  }

  /** Handler i takes its rewinding step somewhere in the run. */
  ghost predicate RollsBack(e: Env, s: State, i: nat, actions: seq<Action>)
    decreases |actions|
  {
    actions != [] &&
    ((IsTick(actions[0], i) && i < |s.threads| && s.threads[i].pc == Rewind)
     || RollsBack(e, Do(e, s, actions[0]), i, actions[1..]))
  }

  /** When handler i takes its next step, the key is recorded. */
  ghost predicate FindsRecorded(e: Env, s: State, i: nat, key: Key, actions: seq<Action>)
    decreases |actions|
  {
    actions != [] &&
    if IsTick(actions[0], i) then Recorded(s.events, key) else FindsRecorded(e, Do(e, s, actions[0]), i, key, actions[1..])
  }

  /** No restart, and no failure in a step of handler i. */
  predicate Undisturbed(actions: seq<Action>, i: nat) {
    forall a <- actions :: !a.Restart? && (IsTick(a, i) ==> a.ok)
  }

  lemma OthersLeave(e: Env, s: State, i: nat, a: Action)
    requires i < |s.threads| && !a.Restart?
    ensures i < |Do(e, s, a).threads|
    ensures !IsTick(a, i) ==> Do(e, s, a).threads[i] == s.threads[i]
    ensures Do(e, s, a).threads[i].log == s.threads[i].log
  {
    hide Running, Recorded, Upsert;
  }

  lemma {:induction false} DoneNeverRewinds(e: Env, s: State, i: nat, actions: seq<Action>)
    requires i < |s.threads| && Undisturbed(actions, i) && s.threads[i].pc == Done
    ensures !RollsBack(e, s, i, actions)
    decreases |actions|
  {
    if actions == [] {
    } else {
      OthersLeave(e, s, i, actions[0]);
      assert Do(e, s, actions[0]).threads[i].pc == Done;
      hide Do;
      DoneNeverRewinds(e, Do(e, s, actions[0]), i, actions[1..]);
    }
  }

  lemma {:induction false} WaiterRewinds(e: Env, s: State, i: nat, actions: seq<Action>)
    requires i < |s.threads| && Undisturbed(actions, i) && s.threads[i].log.removed
    requires s.threads[i].pc == Wait || s.threads[i].pc == Rewind
    requires i < |Run(e, s, actions).threads| && Run(e, s, actions).threads[i].pc == Done
    ensures RollsBack(e, s, i, actions)
    decreases |actions|
  {
    var a, s' := actions[0], Do(e, s, actions[0]);
    OthersLeave(e, s, i, a);
    if IsTick(a, i) && s.threads[i].pc == Rewind {
    } else {
      assert s'.threads[i].pc == Wait || s'.threads[i].pc == Rewind;
      hide Do;
      WaiterRewinds(e, s', i, actions[1..]);
    }
  }

  /**
   * In any interleaving, a removed log whose handler runs to its end without a failure rolls
   * the watcher back exactly when its key is not recorded at the moment the handler looks.
   */
  lemma {:induction false} RollbackIff(e: Env, s: State, i: nat, actions: seq<Action>)
    requires i < |s.threads| && Undisturbed(actions, i)
    requires s.threads[i].pc == Check && s.threads[i].log.removed && s.threads[i].log.event.Some?
    requires i < |Run(e, s, actions).threads| && Run(e, s, actions).threads[i].pc == Done
    ensures RollsBack(e, s, i, actions) <==> !FindsRecorded(e, s, i, s.threads[i].log.key, actions)
    decreases |actions|
  {
    var a, s' := actions[0], Do(e, s, actions[0]);
    OthersLeave(e, s, i, a);
    if IsTick(a, i) {
      if Recorded(s.events, s.threads[i].log.key) {
        DoneNeverRewinds(e, s', i, actions[1..]);
      } else {
        WaiterRewinds(e, s', i, actions[1..]);
      }
    } else {
      hide Do;
      RollbackIff(e, s', i, actions[1..]);
    }
  }
}
