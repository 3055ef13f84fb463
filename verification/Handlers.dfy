/**
 * The watcher's goroutines as a state machine: handlers spawned by the subscription, the poller
 * and its handlers, the cursor saver, the expiry job and restarts, interleaved step by step.
 */
module Handlers {
  import opened Common
  import opened Codec
  import opened OrderBook
  import opened Events
  import opened ChainSync

  const MAX_HANDLERS: nat := 64

  /** Where a handler stands in handleLog; each step between two of these is atomic. */
  datatype Pc = Check | Wait | Record | Dispatch | Advance | Rewind | Purge | Done

  datatype Thread = Thread(log: ChainLog, pc: Pc, subscribed: bool)

  /** The poller: idle, holding a head, holding a range, or feeding logs to a handler it waits for. */
  datatype Poller = Resting | HaveHead(latest: uint64) | Asking(from: uint64, to: uint64)
                  | Feeding(to: uint64, rest: seq<ChainLog>, waiting: Option<nat>)

  /** What has touched the book, in order. */
  datatype Item = Handled(l: ChainLog) | Expiry(now: Instant)

  datatype State = State(
    head: uint64, cursor: uint64, saved: uint64, saving: Option<uint64>,
    threads: seq<Thread>, poller: Poller, events: seq<EventRow>, history: seq<Item>, book: seq<Row>)

  datatype Env = Env(confirmations: uint64, junk: string -> int)

  /** `ok` is false where the node or the database fails. */
  datatype Action =
    | NewHead(h: uint64)
    | Deliver(l: ChainLog)
    | Tick(i: nat, ok: bool)
    | PollStep(logs: seq<ChainLog>, ok: bool)
    | ReadCursor
    | WriteCursor(ok: bool)
    | ExpireOrders(now: Instant)
    | Restart(savedOk: bool, headOk: bool)

  /** Subscription handlers that hold a semaphore slot. */
  function Running(threads: seq<Thread>): nat {
    if threads == [] then 0
    else
      var t := threads[|threads| - 1];
      Running(threads[..|threads| - 1]) + if t.subscribed && t.pc != Done then 1 else 0
  }

  /** INSERT ... ON CONFLICT DO NOTHING. */
  function Upsert(events: seq<EventRow>, row: EventRow): seq<EventRow> {
    if Recorded(events, row.key) then events else events + [row]
  }

  function DoTick(e: Env, s: State, i: nat, ok: bool): (s': State)
    requires i < |s.threads|
    ensures |s'.threads| == |s.threads|
  {
    var l := s.threads[i].log;
    var at := (pc: Pc) => s.threads[i := s.threads[i].(pc := pc)];
    match s.threads[i].pc
    case Check =>
      s.(threads := at(if l.event.None? || !ok || Recorded(s.events, l.key) then Done else Wait))
    case Wait =>
      if !ok then s.(threads := at(Done))
      else if s.head >= Add64(l.key.block, e.confirmations) then s.(threads := at(if l.removed then Rewind else Record))
      else s
    case Record =>
      if !ok || l.event.None? then s.(threads := at(Done))
      else s.(events := Upsert(s.events, EventRow(l.key, l.event.value)), threads := at(Dispatch))
    case Dispatch =>
      if !ok || l.event.None? then s.(threads := at(Advance))
      else s.(book := HandleRows(l.event.value, e.junk, s.book), history := s.history + [Handled(l)], threads := at(Advance))
    case Advance => s.(cursor := Max(s.cursor, l.key.block), threads := at(Done))
    case Rewind => s.(cursor := RewindTo(l.key.block), threads := at(Purge))
    case Purge =>
      s.(events := if ok then RowsBelow(s.events, RewindTo(l.key.block)) else s.events, threads := at(Done))
    case Done => s
  }

  function DoPoll(e: Env, s: State, logs: seq<ChainLog>, ok: bool): State {
    match s.poller
    case Resting => if ok then s.(poller := HaveHead(s.head)) else s
    case HaveHead(latest) =>
      if Add64(Add64(s.cursor, 1), e.confirmations) > latest then s.(poller := Resting)
      else s.(poller := Asking(Add64(s.cursor, 1), Sub64(latest, e.confirmations)))
    case Asking(_, to) => s.(poller := if ok then Feeding(to, logs, None) else Resting)
    case Feeding(to, rest, Some(t)) =>
      if t < |s.threads| && s.threads[t].pc != Done then s else s.(poller := Feeding(to, rest, None))
    case Feeding(to, rest, None) =>
      if rest == [] then s.(cursor := Max(s.cursor, to), poller := Resting)
      else s.(threads := s.threads + [Thread(rest[0], Check, false)], poller := Feeding(to, rest[1..], Some(|s.threads|)))
  }

  function Do(e: Env, s: State, a: Action): State {
    match a
    case NewHead(h) => if h > s.head then s.(head := h) else s
    case Deliver(l) =>
      if Running(s.threads) < MAX_HANDLERS then s.(threads := s.threads + [Thread(l, Check, true)]) else s
    case Tick(i, ok) => if i < |s.threads| then DoTick(e, s, i, ok) else s
    case PollStep(logs, ok) => DoPoll(e, s, logs, ok)
    case ReadCursor => s.(saving := Some(s.cursor))
    case WriteCursor(ok) =>
      if s.saving.None? then s else s.(saved := if ok then s.saving.value else s.saved, saving := None)
    case ExpireOrders(now) => s.(book := ApplyUpdate(Expire(now), s.book), history := s.history + [Expiry(now)])
    case Restart(savedOk, headOk) =>
      s.(cursor := InitialCursor(if savedOk then s.saved else 0, if headOk then s.head else 0),
         saving := None, threads := [], poller := Resting)
  }

  function Run(e: Env, s: State, actions: seq<Action>): State
    decreases |actions|
  {
    if actions == [] then s else Run(e, Do(e, s, actions[0]), actions[1..])
  }

  // ----- safety, through failures, reorganisations and restarts -----

  /** A cursor value that every block up to it has its confirmations. */
  predicate Confirmed(e: Env, c: uint64, head: uint64) {
    c == 0 || c + e.confirmations <= head
  }

  predicate UniqueKeys(events: seq<EventRow>) {
    forall i, j :: 0 <= i < j < |events| ==> events[i].key != events[j].key
  }

  /** A handler past its wait works on a confirmed block. */
  predicate ThreadSafe(e: Env, t: Thread, head: uint64) {
    t.log.key.block + e.confirmations < TWO_64 &&
    (t.pc.Record? || t.pc.Dispatch? || t.pc.Advance? || t.pc.Rewind? || t.pc.Purge? ==>
       t.log.key.block + e.confirmations <= head)
  }

  predicate PollerSafe(e: Env, p: Poller, head: uint64) {
    match p
    case Resting => true
    case HaveHead(latest) => latest <= head
    case Asking(_, to) => to + e.confirmations <= head
    case Feeding(to, rest, _) =>
      to + e.confirmations <= head && forall l <- rest :: l.key.block + e.confirmations < TWO_64
  }

  ghost predicate Safe(e: Env, s: State) {
    && s.head < TWO_64 - 1
    && Confirmed(e, s.cursor, s.head) && Confirmed(e, s.saved, s.head)
    && (s.saving.Some? ==> Confirmed(e, s.saving.value, s.head))
    && (forall t <- s.threads :: ThreadSafe(e, t, s.head))
    && PollerSafe(e, s.poller, s.head)
    && UniqueKeys(s.events)
    && Running(s.threads) <= MAX_HANDLERS
  }

  /** Block numbers and heads leave room for the confirmations below 2^64. */
  ghost predicate InRange(e: Env, a: Action) {
    match a
    case NewHead(h) => h < TWO_64 - 1
    case Deliver(l) => l.key.block + e.confirmations < TWO_64
    case PollStep(logs, _) => forall l <- logs :: l.key.block + e.confirmations < TWO_64
    case _ => true
  }

  lemma {:induction false} RunningUpdate(threads: seq<Thread>, i: nat, pc: Pc)
    requires i < |threads| && (threads[i].pc != Done || pc == Done)
    ensures Running(threads[i := threads[i].(pc := pc)]) <= Running(threads)
    decreases |threads|
  {
    var n := |threads| - 1;
    var after := threads[i := threads[i].(pc := pc)];
    if i < n {
      RunningUpdate(threads[..n], i, pc);
      assert after[..n] == threads[..n][i := threads[..n][i].(pc := pc)];
    } else {
      assert after[..n] == threads[..n];
    }
  }

  lemma {:induction false} RowsBelowUnique(events: seq<EventRow>, block: uint64)
    requires UniqueKeys(events)
    ensures UniqueKeys(RowsBelow(events, block))
    ensures forall r <- RowsBelow(events, block) :: r in events
  {
    if events == [] {
    } else {
      RowsBelowUnique(events[1..], block);
      forall r <- RowsBelow(events[1..], block) ensures r.key != events[0].key && r in events {
        var k :| 0 <= k < |events[1..]| && events[1..][k] == r;
        assert events[k + 1] == r;
      }
    }
  }

  lemma UpsertUnique(events: seq<EventRow>, row: EventRow)
    requires UniqueKeys(events)
    ensures UniqueKeys(Upsert(events, row))
  {
    if !Recorded(events, row.key) {
      forall r <- events ensures r.key != row.key {
      }
    }
  }

  /** No 64-bit addition of a poll wraps, and its subtraction is only reached when it cannot underflow. */
  lemma PollArithmetic(e: Env, s: State, latest: uint64)
    requires Safe(e, s) && s.poller == HaveHead(latest) && e.confirmations <= FIRST_SYNC_DEPTH
    ensures Add64(Add64(s.cursor, 1), e.confirmations) == s.cursor + 1 + e.confirmations
    ensures s.cursor + 1 + e.confirmations <= latest ==>
              (Sub64(latest, e.confirmations) == latest - e.confirmations && s.cursor < latest - e.confirmations)
  {
  }

  lemma ThreadsUpdated(e: Env, s: State, i: nat, t: Thread)
    requires Safe(e, s) && i < |s.threads| && ThreadSafe(e, t, s.head)
    ensures forall x <- s.threads[i := t] :: ThreadSafe(e, x, s.head)
  {
  }

  /** The thread a tick leaves behind, and the cursor. */
  lemma TickConfirmed(e: Env, s: State, i: nat, ok: bool)
    requires Safe(e, s) && i < |s.threads| && e.confirmations <= FIRST_SYNC_DEPTH
    ensures var s' := DoTick(e, s, i, ok);
            ThreadSafe(e, s'.threads[i], s.head) && Confirmed(e, s'.cursor, s.head)
            && s'.threads == s.threads[i := s.threads[i].(pc := s'.threads[i].pc)]
            && (s.threads[i].pc != Done || s'.threads[i].pc == Done)
  {
    hide Running, RowsBelow, Upsert, Recorded, UniqueKeys, HandleRows, PollerSafe;
    var t := s.threads[i];
    assert t in s.threads;
    assert Add64(t.log.key.block, e.confirmations) == t.log.key.block + e.confirmations;
    hide Safe, Add64;
    TickThreads(e, s, i, ok);
  }

  /** A step of a handler moves only that handler on, and a finished one stays so. */
  lemma TickThreads(e: Env, s: State, i: nat, ok: bool)
    requires i < |s.threads|
    ensures var s' := DoTick(e, s, i, ok);
            && s'.threads == s.threads[i := s.threads[i].(pc := s'.threads[i].pc)]
            && (s.threads[i].pc != Done || s'.threads[i].pc == Done)
  {
    hide RowsBelow, Upsert, Recorded, HandleRows, Add64;
  }

  lemma TickUnique(e: Env, s: State, i: nat, ok: bool)
    requires UniqueKeys(s.events) && i < |s.threads|
    ensures UniqueKeys(DoTick(e, s, i, ok).events)
  {
    var t := s.threads[i];
    hide UniqueKeys, Upsert, RowsBelow, Recorded;
    if t.pc.Record? && t.log.event.Some? {
      UpsertUnique(s.events, EventRow(t.log.key, t.log.event.value));
    }
    RowsBelowUnique(s.events, RewindTo(t.log.key.block));
  }

  lemma TickSafe(e: Env, s: State, i: nat, ok: bool)
    requires Safe(e, s) && i < |s.threads| && e.confirmations <= FIRST_SYNC_DEPTH
    ensures Safe(e, DoTick(e, s, i, ok))
  {
    var s' := DoTick(e, s, i, ok);
    TickConfirmed(e, s, i, ok);
    TickUnique(e, s, i, ok);
    hide Running, UniqueKeys, ThreadSafe, Confirmed, PollerSafe;
    assert s' == s.(cursor := s'.cursor, events := s'.events, book := s'.book, history := s'.history, threads := s'.threads);
    hide DoTick;
    RunningUpdate(s.threads, i, s'.threads[i].pc);
    ThreadsUpdated(e, s, i, s'.threads[i]);
  }

  lemma PollSafe(e: Env, s: State, logs: seq<ChainLog>, ok: bool)
    requires Safe(e, s) && InRange(e, PollStep(logs, ok)) && e.confirmations <= FIRST_SYNC_DEPTH
    ensures Safe(e, DoPoll(e, s, logs, ok))
  {
    hide Running, UniqueKeys, Add64, Sub64;
    match s.poller
    case HaveHead(latest) => PollArithmetic(e, s, latest);
    case Feeding(to, rest, None) =>
      if rest != [] {
        assert rest[0] in rest;
        RunningAppend(s.threads, Thread(rest[0], Check, false));
      }
    case _ =>
  }

  lemma RunningAppend(threads: seq<Thread>, t: Thread)
    ensures Running(threads + [t]) == Running(threads) + if t.subscribed && t.pc != Done then 1 else 0
    ensures forall x <- threads + [t] :: x == t || x in threads
  {
    assert (threads + [t])[..|threads|] == threads;
  }

  lemma DeliverSafe(e: Env, s: State, l: ChainLog)
    requires Safe(e, s) && InRange(e, Deliver(l))
    ensures Safe(e, Do(e, s, Deliver(l)))
  {
    RunningAppend(s.threads, Thread(l, Check, true));
    hide Running, UniqueKeys, Confirmed, PollerSafe;
  }

  lemma RestartSafe(e: Env, s: State, savedOk: bool, headOk: bool)
    requires Safe(e, s) && e.confirmations <= FIRST_SYNC_DEPTH
    ensures Safe(e, Do(e, s, Restart(savedOk, headOk)))
  {
    hide UniqueKeys, ThreadSafe;
  }

  lemma StepSafe(e: Env, s: State, a: Action)
    requires Safe(e, s) && InRange(e, a) && e.confirmations <= FIRST_SYNC_DEPTH
    ensures Safe(e, Do(e, s, a))
  {
    hide Running, UniqueKeys, DoTick, DoPoll;
    match a
    case Tick(i, ok) => if i < |s.threads| { TickSafe(e, s, i, ok); }
    case PollStep(logs, ok) => PollSafe(e, s, logs, ok);
    case Deliver(l) => DeliverSafe(e, s, l);
    case Restart(savedOk, headOk) => RestartSafe(e, s, savedOk, headOk);
    case NewHead(_) =>
    case ReadCursor =>
    case WriteCursor(_) =>
    case ExpireOrders(_) =>
  }

  /**
   * In every reachable state, whatever fails, is delivered twice, is reorganised away or is
   * restarted: the cursor and every saved cursor are zero or confirmed, event keys are unique,
   * and at most 64 subscription handlers run.
   */
  lemma {:induction false} AlwaysSafe(e: Env, s: State, actions: seq<Action>)
    requires Safe(e, s) && e.confirmations <= FIRST_SYNC_DEPTH && forall a <- actions :: InRange(e, a)
    ensures Safe(e, Run(e, s, actions))
    decreases |actions|
  {
    if actions == [] {
    } else {
      StepSafe(e, s, actions[0]);
      AlwaysSafe(e, Do(e, s, actions[0]), actions[1..]);
    }
  }

  ghost predicate EveryRunSafe(e: Env) {
    forall s: State, actions: seq<Action> ::
      Safe(e, s) && (forall a <- actions :: InRange(e, a)) ==> Safe(e, Run(e, s, actions))
  }

  /** A first start at a low head takes an unconfirmed cursor when the depth exceeds what it steps back. */
  lemma FirstStartUnsafe(e: Env)
    requires e.confirmations > FIRST_SYNC_DEPTH
    ensures !EveryRunSafe(e)
  {
    var s := State(FIRST_SYNC_DEPTH + 1, 0, 0, None, [], Resting, [], [], []);
    var actions := [Restart(true, true)];
    assert actions[1..] == [];
    assert Run(e, s, actions).cursor == 1;
    assert Safe(e, s) && forall a <- actions :: InRange(e, a);
    assert !Safe(e, Run(e, s, actions));
  }

  /** The depth for which every run is safe: at most the 100 blocks a first start steps back. */
  lemma AlwaysSafeIff(e: Env)
    ensures EveryRunSafe(e) <==> e.confirmations <= FIRST_SYNC_DEPTH
  {
    if e.confirmations <= FIRST_SYNC_DEPTH {
      forall s: State, actions: seq<Action> | Safe(e, s) && forall a <- actions :: InRange(e, a)
        ensures Safe(e, Run(e, s, actions))
      {
        AlwaysSafe(e, s, actions);
      }
    } else {
      FirstStartUnsafe(e);
    }
  }

  // ----- every key is handled, without failures, reorganisations and restarts -----

  ghost predicate Quiet(a: Action) {
    match a
    case Deliver(l) => !l.removed
    case Tick(_, ok) => ok
    case PollStep(logs, _) => forall l <- logs :: !l.removed
    case Restart(_, _) => false
    case _ => true
  }

  predicate HandledKey(history: seq<Item>, key: Key) {
    exists h <- history :: h.Handled? && h.l.key == key
  }

  function UpdateOfItem(h: Item, junk: string -> int): seq<Update> {
    match h
    case Expiry(now) => [Expire(now)]
    case Handled(l) => UpdatesOfLog(l, junk)
  }

  function ItemUpdates(junk: string -> int): Item -> seq<Update> {
    h => UpdateOfItem(h, junk)
  }

  /** The history without the repeated handlings of a key. */
  function FirstOnly(history: seq<Item>): seq<Item>
    decreases |history|
  {
    if history == [] then []
    else
      var init, h := history[..|history| - 1], history[|history| - 1];
      if h.Handled? && HandledKey(init, h.l.key) then FirstOnly(init) else FirstOnly(init) + [h]
  }

  /** A handler past its insert has its key recorded. */
  predicate ThreadSettled(events: seq<EventRow>, t: Thread) {
    && !t.log.removed
    && !t.pc.Rewind? && !t.pc.Purge?
    && (t.pc.Wait? || t.pc.Record? || t.pc.Dispatch? || t.pc.Advance? ==> t.log.event.Some?)
    && (t.pc.Dispatch? || t.pc.Advance? || t.pc.Done? ==> t.log.event.None? || Recorded(events, t.log.key))
  }

  predicate Dispatching(threads: seq<Thread>, key: Key) {
    exists t <- threads :: t.pc.Dispatch? && t.log.key == key
  }

  ghost predicate OnTrack(s0: State, s: State) {
    && (forall t <- s.threads :: ThreadSettled(s.events, t))
    && (s.poller.Feeding? ==> forall l <- s.poller.rest :: !l.removed)
    && (forall key :: Recorded(s.events, key) ==>
          Recorded(s0.events, key) || HandledKey(s.history, key) || Dispatching(s.threads, key))
  }

  lemma RecordedUpsert(events: seq<EventRow>, row: EventRow)
    ensures forall key :: Recorded(Upsert(events, row), key) <==> Recorded(events, key) || key == row.key
  {
    RecordedAppend(events, row);
  }

  lemma TickRecord(e: Env, s0: State, s: State, i: nat)
    requires OnTrack(s0, s) && i < |s.threads| && s.threads[i].pc == Record
    ensures OnTrack(s0, DoTick(e, s, i, true))
  {
    var t := s.threads[i];
    assert t in s.threads;
    var s' := DoTick(e, s, i, true);
    RecordedUpsert(s.events, EventRow(t.log.key, t.log.event.value));
    hide Recorded, Upsert;
    forall x <- s'.threads ensures ThreadSettled(s'.events, x) {
      assert x == s'.threads[i] || x in s.threads;
    }
    forall key | Recorded(s'.events, key)
      ensures Recorded(s0.events, key) || HandledKey(s'.history, key) || Dispatching(s'.threads, key)
    {
      if key == t.log.key {
        assert s'.threads[i] in s'.threads;
      } else if Dispatching(s.threads, key) {
        DispatchingKept(s.threads, i, s'.threads[i], key);
      }
    }
  }

  lemma HandledKeyAppend(history: seq<Item>, h: Item)
    ensures forall key :: HandledKey(history + [h], key) <==>
                          HandledKey(history, key) || (h.Handled? && h.l.key == key)
  {
    forall key ensures HandledKey(history + [h], key) <==> HandledKey(history, key) || (h.Handled? && h.l.key == key) {
      assert h in history + [h];
      if HandledKey(history, key) {
        var x :| x in history && x.Handled? && x.l.key == key;
        assert x in history + [h];
      }
    }
  }

  lemma TickDispatch(e: Env, s0: State, s: State, i: nat)
    requires OnTrack(s0, s) && i < |s.threads| && s.threads[i].pc == Dispatch
    ensures OnTrack(s0, DoTick(e, s, i, true))
  {
    var t := s.threads[i];
    assert t in s.threads;
    var s' := DoTick(e, s, i, true);
    HandledKeyAppend(s.history, Handled(t.log));
    hide Recorded, HandledKey, HandleRows;
    forall x <- s'.threads ensures ThreadSettled(s'.events, x) {
      assert x == s'.threads[i] || x in s.threads;
    }
    forall key | Recorded(s'.events, key)
      ensures Recorded(s0.events, key) || HandledKey(s'.history, key) || Dispatching(s'.threads, key)
    {
      if key != t.log.key && Dispatching(s.threads, key) {
        DispatchingKept(s.threads, i, s'.threads[i], key);
      }
    }
  }

  lemma TickElsewhere(e: Env, s0: State, s: State, i: nat)
    requires OnTrack(s0, s) && i < |s.threads| && s.threads[i].pc != Record && s.threads[i].pc != Dispatch
    ensures OnTrack(s0, DoTick(e, s, i, true))
  {
    var t := s.threads[i];
    assert t in s.threads;
    var s' := DoTick(e, s, i, true);
    hide Recorded, HandledKey;
    forall x <- s'.threads ensures ThreadSettled(s'.events, x) {
      assert x == s'.threads[i] || x in s.threads;
    }
    forall key | Dispatching(s.threads, key) ensures Dispatching(s'.threads, key) {
      DispatchingKept(s.threads, i, s'.threads[i], key);
    }
  }

  lemma SpawnOnTrack(e: Env, s0: State, s: State, t: Thread, poller: Poller)
    requires OnTrack(s0, s) && t.pc == Check && !t.log.removed
    requires poller.Feeding? ==> forall l <- poller.rest :: !l.removed
    ensures OnTrack(s0, s.(threads := s.threads + [t], poller := poller))
  {
    var threads := s.threads + [t];
    forall key | Dispatching(s.threads, key) ensures Dispatching(threads, key) {
      var x :| x in s.threads && x.pc.Dispatch? && x.log.key == key;
      assert x in threads;
    }
  }

  lemma ExpiryOnTrack(e: Env, s0: State, s: State, now: Instant)
    requires OnTrack(s0, s)
    ensures OnTrack(s0, Do(e, s, ExpireOrders(now)))
  {
    HandledKeyAppend(s.history, Expiry(now));
    hide Recorded, HandledKey, Dispatching;
  }

  lemma TickOnTrack(e: Env, s0: State, s: State, i: nat)
    requires OnTrack(s0, s) && i < |s.threads|
    ensures OnTrack(s0, DoTick(e, s, i, true))
  {
    hide OnTrack, DoTick;
    if s.threads[i].pc == Record {
      TickRecord(e, s0, s, i);
    } else if s.threads[i].pc == Dispatch {
      TickDispatch(e, s0, s, i);
    } else {
      TickElsewhere(e, s0, s, i);
    }
  }

  lemma PollOnTrack(e: Env, s0: State, s: State, logs: seq<ChainLog>, ok: bool)
    requires OnTrack(s0, s) && Quiet(PollStep(logs, ok))
    ensures OnTrack(s0, DoPoll(e, s, logs, ok))
  {
    hide Recorded, HandledKey, Dispatching;
    if s.poller.Feeding? && s.poller.waiting.None? && s.poller.rest != [] {
      var rest := s.poller.rest;
      SpawnOnTrack(e, s0, s, Thread(rest[0], Check, false), Feeding(s.poller.to, rest[1..], Some(|s.threads|)));
    }
  }

  lemma StepOnTrack(e: Env, s0: State, s: State, a: Action)
    requires OnTrack(s0, s) && Quiet(a)
    ensures OnTrack(s0, Do(e, s, a))
  {
    hide DoTick, DoPoll, Recorded, HandledKey, Dispatching;
    match a
    case Deliver(l) => SpawnOnTrack(e, s0, s, Thread(l, Check, true), s.poller);
    case ExpireOrders(now) => ExpiryOnTrack(e, s0, s, now);
    case Tick(i, ok) => if i < |s.threads| { TickOnTrack(e, s0, s, i); }
    case PollStep(logs, ok) => PollOnTrack(e, s0, s, logs, ok);
    case NewHead(_) =>
    case ReadCursor =>
    case WriteCursor(_) =>
  }

  lemma {:induction false} RunOnTrack(e: Env, s0: State, s: State, actions: seq<Action>)
    requires OnTrack(s0, s) && forall a <- actions :: Quiet(a)
    ensures OnTrack(s0, Run(e, s, actions))
    decreases |actions|
  {
    if actions == [] {
    } else {
      StepOnTrack(e, s0, s, actions[0]);
      RunOnTrack(e, s0, Do(e, s, actions[0]), actions[1..]);
    }
  }

  // ----- exactly-once effect on the book, through failures, rollbacks and restarts -----

  /** The log carries the one event there is for its key. */
  predicate Genuine(canon: Key -> EventData, l: ChainLog) {
    l.event.Some? ==> l.event.value == canon(l.key)
  }

  /** Repeated handlings of a key are absorbed: only the first of each key shaped the book. */
  lemma {:induction false} RepeatsAbsorbed(e: Env, canon: Key -> EventData, history: seq<Item>, start: seq<Row>)
    requires forall h <- history :: h.Handled? ==> Genuine(canon, h.l) && h.l.event.Some?
    ensures RunUpdates(Gather(FirstOnly(history), ItemUpdates(e.junk)), start)
         == RunUpdates(Gather(history, ItemUpdates(e.junk)), start)
    decreases |history|
  {
    if history == [] {
    } else {
      var init, h := history[..|history| - 1], history[|history| - 1];
      assert history == init + [h];
      RepeatsAbsorbed(e, canon, init, start);
      GatherRuns(init, h, ItemUpdates(e.junk), start);
      if h.Handled? && HandledKey(init, h.l.key) {
        RepeatIsFree(e, canon, init, h, start);
      } else {
        GatherRuns(FirstOnly(init), h, ItemUpdates(e.junk), start);
      }
    }
  }

  lemma RepeatIsFree(e: Env, canon: Key -> EventData, history: seq<Item>, h: Item, start: seq<Row>)
    requires forall x <- history :: x.Handled? ==> Genuine(canon, x.l) && x.l.event.Some?
    requires h.Handled? && Genuine(canon, h.l) && h.l.event.Some? && HandledKey(history, h.l.key)
    ensures RunUpdates(UpdateOfItem(h, e.junk), RunUpdates(Gather(history, ItemUpdates(e.junk)), start))
         == RunUpdates(Gather(history, ItemUpdates(e.junk)), start)
  {
    var x :| x in history && x.Handled? && x.l.key == h.l.key;
    GatherHas(history, x, ItemUpdates(e.junk));
    ReplayAbsorbed(Gather(history, ItemUpdates(e.junk)), UpdateOfItem(h, e.junk), start);
  }

  ghost predicate BringsGenuine(canon: Key -> EventData, a: Action) {
    match a
    case Deliver(l) => Genuine(canon, l)
    case PollStep(logs, _) => forall l <- logs :: Genuine(canon, l)
    case _ => true
  }

  /** Every log about is genuine, and the book is the starting one with the history's updates. */
  ghost predicate Faithful(e: Env, canon: Key -> EventData, s0: State, s: State) {
    && (forall t <- s.threads :: Genuine(canon, t.log))
    && (s.poller.Feeding? ==> forall l <- s.poller.rest :: Genuine(canon, l))
    && (forall h <- s.history :: h.Handled? ==> Genuine(canon, h.l) && h.l.event.Some?)
    && s.book == RunUpdates(Gather(s.history, ItemUpdates(e.junk)), s0.book)
  }

  /** One more item on the history, and its updates on the book. */
  lemma ItemFaithful(e: Env, canon: Key -> EventData, s0: State, s: State, h: Item, threads: seq<Thread>)
    requires Faithful(e, canon, s0, s) && forall t <- threads :: Genuine(canon, t.log)
    requires h.Handled? ==> Genuine(canon, h.l) && h.l.event.Some?
    ensures Faithful(e, canon, s0, s.(book := RunUpdates(UpdateOfItem(h, e.junk), s.book), history := s.history + [h], threads := threads))
  {
    GatherRuns(s.history, h, ItemUpdates(e.junk), s0.book);
    hide Gather, RunUpdates, UpdateOfItem, Genuine;
  }

  lemma TickFaithful(e: Env, canon: Key -> EventData, s0: State, s: State, i: nat, ok: bool)
    requires Faithful(e, canon, s0, s) && i < |s.threads|
    ensures Faithful(e, canon, s0, DoTick(e, s, i, ok))
  {
    var t, s' := s.threads[i], DoTick(e, s, i, ok);
    assert t in s.threads;
    hide Recorded, Upsert, RowsBelow, Genuine, Gather, RunUpdates, HandleRows, UpdateList;
    forall x <- s'.threads ensures Genuine(canon, x.log) {
      assert x == s'.threads[i] || x in s.threads;
    }
    if t.pc == Dispatch && ok && t.log.event.Some? {
      HandleRowsRuns(t.log.event.value, e.junk, s.book);
      ItemFaithful(e, canon, s0, s, Handled(t.log), s'.threads);
    }
  }

  lemma StepFaithful(e: Env, canon: Key -> EventData, s0: State, s: State, a: Action)
    requires Faithful(e, canon, s0, s) && BringsGenuine(canon, a)
    ensures Faithful(e, canon, s0, Do(e, s, a))
  {
    hide DoTick, Running, Genuine, Gather, RunUpdates;
    match a
    case Tick(i, ok) => if i < |s.threads| { TickFaithful(e, canon, s0, s, i, ok); }
    case ExpireOrders(now) =>
      OneUpdate(Expire(now), s.book);
      ItemFaithful(e, canon, s0, s, Expiry(now), s.threads);
    case _ =>
  }

  lemma OneUpdate(u: Update, rows: seq<Row>)
    ensures RunUpdates([u], rows) == ApplyUpdate(u, rows)
  {
    assert [u][1..] == [];
  }

  lemma {:induction false} RunFaithful(e: Env, canon: Key -> EventData, s0: State, s: State, actions: seq<Action>)
    requires Faithful(e, canon, s0, s) && forall a <- actions :: BringsGenuine(canon, a)
    ensures Faithful(e, canon, s0, Run(e, s, actions))
    decreases |actions|
  {
    hide Faithful, BringsGenuine, Do;
    if actions == [] {
    } else {
      StepFaithful(e, canon, s0, s, actions[0]);
      RunFaithful(e, canon, s0, Do(e, s, actions[0]), actions[1..]);
    }
  }

  ghost predicate AllDone(s: State) {
    forall t <- s.threads :: t.pc.Done?
  }

  /**
   * Exactly-once effect. From a state with nothing in flight, through any interleaving of any
   * number of handlers with polls, expiries, failures, repeated deliveries, rollbacks and
   * restarts, as long as there is one event for each key: the book is that of the first handling
   * of each key, in the order in which those handlings happened. Without failures, removed logs
   * and restarts, once every handler is done, every key that was given a handler has been
   * handled (or was recorded before the start).
   */
  lemma ExactlyOnceEffect(e: Env, canon: Key -> EventData, s0: State, actions: seq<Action>)
    requires s0.threads == [] && s0.history == [] && s0.poller == Resting
    requires forall a <- actions :: BringsGenuine(canon, a)
    ensures var s := Run(e, s0, actions);
            && s.book == RunUpdates(Gather(FirstOnly(s.history), ItemUpdates(e.junk)), s0.book)
            && ((forall a <- actions :: Quiet(a)) && AllDone(s) ==>
                  (forall t <- s.threads ::
                     t.log.event.None? || Recorded(s0.events, t.log.key) || HandledKey(s.history, t.log.key))
                  && forall key :: Recorded(s.events, key) ==> Recorded(s0.events, key) || HandledKey(s.history, key))
  {
    StartFaithful(e, canon, s0);
    RunFaithful(e, canon, s0, s0, actions);
    RepeatsAbsorbed(e, canon, Run(e, s0, actions).history, s0.book);
    hide Run, Gather, FirstOnly, RunUpdates, Recorded, HandledKey;
    if forall a <- actions :: Quiet(a) {
      RunOnTrack(e, s0, s0, actions);
    }
  }

  lemma StartFaithful(e: Env, canon: Key -> EventData, s0: State)
    requires s0.threads == [] && s0.history == [] && s0.poller == Resting
    ensures Faithful(e, canon, s0, s0) && OnTrack(s0, s0)
  {
  }

  lemma DispatchingKept(threads: seq<Thread>, i: nat, t: Thread, key: Key)
    requires i < |threads| && Dispatching(threads, key) && (threads[i].pc.Dispatch? ==> threads[i].log.key != key)
    ensures Dispatching(threads[i := t], key)
  {
    var k :| 0 <= k < |threads| && threads[k].pc.Dispatch? && threads[k].log.key == key;
    assert threads[i := t][k] == threads[k];
    assert threads[i := t][k] in threads[i := t];
  }

  // ----- one handler alone is the sequential handleLog -----

  function Ticks(e: Env, s: State, i: nat, n: nat): (s': State)
    requires i < |s.threads|
    ensures |s'.threads| == |s.threads|
    decreases n
  {
    if n == 0 then s else Ticks(e, DoTick(e, s, i, true), i, n - 1)
  }

  lemma {:induction false} TicksRun(e: Env, s: State, i: nat, n: nat)
    requires i < |s.threads|
    ensures Run(e, s, seq(n, _ => Tick(i, true))) == Ticks(e, s, i, n)
    decreases n
  {
    hide DoTick;
    if n == 0 {
    } else {
      TicksRun(e, DoTick(e, s, i, true), i, n - 1);
      assert seq(n, _ => Tick(i, true))[1..] == seq(n - 1, _ => Tick(i, true));
    }
  }

  lemma TickAlone(e: Env, s: State, i: nat)
    requires i < |s.threads|
    ensures var s' := DoTick(e, s, i, true);
            && s'.poller == s.poller && s'.threads[i].log == s.threads[i].log
            && forall k :: 0 <= k < |s.threads| && k != i ==> s'.threads[k] == s.threads[k]
  {
    hide Recorded, Upsert, HandleRows, RowsBelow;
  }

  /** The steps of one handler touch no other, and neither its own log nor the poller. */
  lemma {:induction false} TicksElsewhere(e: Env, s: State, i: nat, n: nat)
    requires i < |s.threads|
    ensures var s' := Ticks(e, s, i, n);
            && s'.poller == s.poller && s'.threads[i].log == s.threads[i].log
            && forall k :: 0 <= k < |s.threads| && k != i ==> s'.threads[k] == s.threads[k]
    decreases n
  {
    hide DoTick;
    if n == 0 {
    } else {
      TickAlone(e, s, i);
      TicksElsewhere(e, DoTick(e, s, i, true), i, n - 1);
    }
  }

  /** A handler that nobody interrupts does what handleLog does on its own. */
  lemma UninterruptedHandler(e: Env, s: State, i: nat)
    requires i < |s.threads| && s.threads[i].pc == Check
    requires s.head >= Add64(s.threads[i].log.key.block, e.confirmations)
    ensures var s' := Ticks(e, s, i, 5);
            s'.threads[i].pc == Done &&
            Store(s'.cursor, s'.events, s'.book)
            == AfterLog(Store(s.cursor, s.events, s.book), s.threads[i].log, true, e.junk)
  {
    hide Recorded, HandleRows, RowsBelow;
    var s1 := DoTick(e, s, i, true);
    var s2 := DoTick(e, s1, i, true);
    var s3 := DoTick(e, s2, i, true);
    var s4 := DoTick(e, s3, i, true);
    var s5 := DoTick(e, s4, i, true);
    assert Ticks(e, s, i, 5) == Ticks(e, s2, i, 3) == Ticks(e, s4, i, 1) == Ticks(e, s5, i, 0);
  }
}
