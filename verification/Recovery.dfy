/**
 * Crash recovery of a watcher that only polls. The process may stop at any point and restart
 * from the saved cursor, and the node or the database may fail while a log is handled; what is
 * then missing, and when nothing is.
 */
module Recovery {
  import opened Common
  import opened Codec
  import opened OrderBook
  import opened Events
  import opened ChainSync
  import opened Chain

  /** The chain's logs in order, the confirmation depth, and the junk of failed number parses. */
  datatype Env = Env(chain: seq<ChainLog>, confirmations: uint64, junk: string -> int)

  datatype Progress = Idle | Polling(to: uint64, rest: seq<ChainLog>)

  /** A log whose event has been stored, and whether its update followed. */
  datatype Entry = Entry(l: ChainLog, applied: bool)

  /**
   * Three history variables: `reached` is the highest block a poll has been started for, `failed`
   * the logs that were once skipped because handling them failed, and `history` the logs whose
   * events this run has stored, in the order in which it did.
   */
  datatype Proc = Proc(head: uint64, store: Store, saved: uint64, saving: Option<uint64>, poll: Progress,
                       reached: uint64, failed: set<ChainLog>, history: seq<Entry>)

  /**
   * What comes of a log: all of it; nothing, because its lookup, wait or insertion failed and the
   * poll went on; or its event without its update, because the update failed, or because the
   * process stopped between the two (and a Restart follows).
   */
  datatype Outcome = Handled | Failed | Unapplied

  /** Begin starts a poll from a head the node has reported, perhaps a while ago. */
  datatype Action =
    | NewHead(h: uint64)
    | Begin(latest: uint64)
    | HandleNext(outcome: Outcome)
    | Finish
    | ReadCursor
    | WriteCursor(ok: bool)
    | Restart

  function Do(e: Env, p: Proc, a: Action): Proc {
    match a
    case NewHead(h) => if h > p.head then p.(head := h) else p
    case Begin(latest) =>
      if p.poll.Idle? && latest <= p.head && p.store.cursor + 1 + e.confirmations <= latest then
        var to := latest - e.confirmations;
        p.(poll := Polling(to, Fetch(e.chain, p.store.cursor, to)), reached := Max(p.reached, to))
      else p
    case HandleNext(outcome) =>
      if p.poll.Polling? && p.poll.rest != [] then HandleFirst(e, p, outcome) else p
    case Finish =>
      if p.poll.Polling? && p.poll.rest == [] then
        p.(store := p.store.(cursor := Max(p.store.cursor, p.poll.to)), poll := Idle)
      else p
    case ReadCursor => p.(saving := Some(p.store.cursor))
    case WriteCursor(ok) =>
      if p.saving.None? then p else p.(saved := if ok then p.saving.value else p.saved, saving := None)
    case Restart => p.(store := p.store.(cursor := InitialCursor(p.saved, p.head)), saving := None, poll := Idle)
  }

  /** Handling a confirmed log, with or without its update. */
  function HandleOne(e: Env, s: Store, l: ChainLog, applied: bool): Store {
    var after := AfterLog(s, l, true, e.junk);
    if applied then after else after.(book := s.book)
  }

  function HandleFirst(e: Env, p: Proc, outcome: Outcome): Proc
    requires p.poll.Polling? && p.poll.rest != []
  {
    var l, p' := p.poll.rest[0], p.(poll := Polling(p.poll.to, p.poll.rest[1..]));
    if Settled(p.store.events, l) then p'
    else if outcome == Failed then p'.(failed := p.failed + {l})
    else
      p'.(store := HandleOne(e, p.store, l, outcome == Handled),
          history := p.history + [Entry(l, outcome == Handled)])
  }

  function Run(e: Env, p: Proc, actions: seq<Action>): Proc
    decreases |actions|
  {
    if actions == [] then p else Run(e, Do(e, p, actions[0]), actions[1..])
  }

  /** A watcher that has just started from a saved, confirmed, non-zero cursor. */
  ghost predicate Started(e: Env, p: Proc) {
    && ValidChain(e.chain) && p.poll == Idle && p.saving == None && p.failed == {} && p.history == []
    && 0 < p.saved == p.store.cursor == p.reached && p.reached + e.confirmations <= p.head
  }

  /** The last poll has finished, and no restart has undone its cursor since. */
  predicate CaughtUp(p: Proc) {
    p.poll.Idle? && p.store.cursor == p.reached
  }

  /** Handling confirmed logs one after the other. */
  function HandleAll(e: Env, s: Store, logs: seq<ChainLog>): Store
    decreases |logs|
  {
    if logs == [] then s else HandleOne(e, HandleAll(e, s, logs[..|logs| - 1]), logs[|logs| - 1], true)
  }

  /** What the tables must hold at cursor c: every log after the starting cursor, once, in chain order. */
  function Expected(e: Env, s: Store, c: uint64): Store {
    HandleAll(e, s, Fetch(e.chain, s.cursor, c))
  }

  /** The two tables hold the same; neither has a column that tells in which order its rows came. */
  ghost predicate SameContents(s: Store, t: Store) {
    multiset(s.events) == multiset(t.events) && s.book == t.book
  }

  predicate Settled(events: seq<EventRow>, l: ChainLog) {
    l.event.None? || Recorded(events, l.key)
  }

  ghost predicate SettledUpto(e: Env, from: uint64, p: Proc, c: uint64) {
    forall l <- Fetch(e.chain, from, c) :: Settled(p.store.events, l)
  }

  /** Every restart resumes above no unhandled log; `from` is the block the whole run started after. */
  ghost predicate RestartsGood(e: Env, from: uint64, p: Proc, actions: seq<Action>)
    decreases |actions|
  {
    actions == [] ||
    ((actions[0].Restart? ==> SettledUpto(e, from, p, p.saved)) && RestartsGood(e, from, Do(e, p, actions[0]), actions[1..]))
  }

  /** Every log whose handling failed has been handled since. */
  ghost predicate FailuresRepaired(p: Proc) {
    forall l <- p.failed :: Settled(p.store.events, l)
  }

  // ----- the two tables as lists of logs -----

  /** The event rows of a list of logs. */
  function Stored(logs: seq<ChainLog>): seq<EventRow> {
    if logs == [] then []
    else
      var l := logs[|logs| - 1];
      Stored(logs[..|logs| - 1]) + if l.event.None? then [] else [EventRow(l.key, l.event.value)]
  }

  /** The logs that are new to an events table. */
  function New(events: seq<EventRow>, logs: seq<ChainLog>): seq<ChainLog> {
    if logs == [] then []
    else
      var l := logs[|logs| - 1];
      New(events, logs[..|logs| - 1]) + if Settled(events, l) then [] else [l]
  }

  function LogOf(x: Entry): ChainLog {
    x.l
  }

  function Logs(history: seq<Entry>): (logs: seq<ChainLog>)
    ensures |logs| == |history|
    ensures forall i :: 0 <= i < |history| ==> logs[i] == history[i].l
  {
    seq(|history|, i requires 0 <= i < |history| => history[i].l)
  }

  /** What an entry did to the book. */
  function AppliedUpdates(junk: string -> int): Entry -> seq<Update> {
    (x: Entry) => if x.applied then UpdatesOfLog(x.l, junk) else []
  }

  /** What an entry should have done to the book. */
  function DueUpdates(junk: string -> int): Entry -> seq<Update> {
    (x: Entry) => UpdatesOfLog(x.l, junk)
  }

  ghost predicate DistinctLogs(logs: seq<ChainLog>) {
    forall i, j :: 0 <= i < j < |logs| ==> logs[i].key != logs[j].key
  }

  lemma {:induction false} NewAre(events: seq<EventRow>, logs: seq<ChainLog>)
    ensures forall l :: l in New(events, logs) <==> l in logs && !Settled(events, l)
  {
    hide Settled;
    if logs == [] {
    } else {
      var init, last := logs[..|logs| - 1], logs[|logs| - 1];
      NewAre(events, init);
      assert forall l :: l in logs <==> l in init || l == last;
    }
  }

  lemma {:induction false} NewDistinct(events: seq<EventRow>, logs: seq<ChainLog>)
    requires DistinctLogs(logs)
    ensures DistinctLogs(New(events, logs))
  {
    hide Settled;
    if logs == [] {
    } else {
      var init := logs[..|logs| - 1];
      NewDistinct(events, init);
      NewAre(events, init);
      forall l <- New(events, init) ensures l.key != logs[|logs| - 1].key {
        var k :| 0 <= k < |init| && init[k] == l;
      }
    }
  }

  lemma NewAppend(events: seq<EventRow>, logs: seq<ChainLog>, l: ChainLog)
    ensures New(events, logs + [l]) == New(events, logs) + if Settled(events, l) then [] else [l]
  {
    assert (logs + [l])[..|logs|] == logs;
  }

  lemma StoredAppend(logs: seq<ChainLog>, l: ChainLog)
    requires l.event.Some?
    ensures Stored(logs + [l]) == Stored(logs) + [EventRow(l.key, l.event.value)]
  {
    assert (logs + [l])[..|logs|] == logs;
  }

  /** One of our logs in the list has the key. */
  ghost predicate Holds(logs: seq<ChainLog>, key: Key) {
    exists l <- logs :: l.event.Some? && l.key == key
  }

  lemma HoldsAppend(logs: seq<ChainLog>, l: ChainLog)
    ensures forall key :: Holds(logs + [l], key) <==> Holds(logs, key) || (l.event.Some? && l.key == key)
  {
    assert forall x :: x in logs + [l] <==> x in logs || x == l;
  }

  lemma {:induction false} StoredKeys(s: seq<EventRow>, logs: seq<ChainLog>)
    ensures forall key :: Recorded(s + Stored(logs), key) <==> Recorded(s, key) || Holds(logs, key)
  {
    if logs == [] {
      assert s + Stored(logs) == s;
    } else {
      var init, l := logs[..|logs| - 1], logs[|logs| - 1];
      StoredKeys(s, init);
      HoldsAppend(init, l);
      assert logs == init + [l];
      hide Recorded, Holds;
      if l.event.Some? {
        RecordedAppend(s + Stored(init), EventRow(l.key, l.event.value));
        assert s + Stored(logs) == s + Stored(init) + [EventRow(l.key, l.event.value)];
      }
    }
  }

  /** One of the logs made the row. */
  ghost predicate Makes(logs: seq<ChainLog>, row: EventRow) {
    exists l <- logs :: l.key == row.key && l.event == Some(row.event)
  }

  lemma MakesAppend(logs: seq<ChainLog>, l: ChainLog, row: EventRow)
    ensures Makes(logs + [l], row) <==> Makes(logs, row) || (l.key == row.key && l.event == Some(row.event))
  {
    assert forall x :: x in logs + [l] <==> x in logs || x == l;
  }

  lemma MadeOnce(logs: seq<ChainLog>, l: ChainLog)
    requires DistinctLogs(logs + [l])
    ensures DistinctLogs(logs) && forall row :: Makes(logs, row) ==> row.key != l.key
  {
    var all := logs + [l];
    assert all[|logs|] == l;
    assert forall i :: 0 <= i < |logs| ==> all[i] == logs[i];
    forall x <- logs ensures x.key != l.key {
      var k :| 0 <= k < |logs| && logs[k] == x;
    }
  }

  /** A row stands in the table of distinct logs as often as one of them made it: once or never. */
  lemma {:induction false} StoredCounts(logs: seq<ChainLog>, row: EventRow)
    requires DistinctLogs(logs)
    ensures multiset(Stored(logs))[row] == if Makes(logs, row) then 1 else 0
  {
    if logs == [] {
    } else {
      var init, last := logs[..|logs| - 1], logs[|logs| - 1];
      assert logs == init + [last];
      MadeOnce(init, last);
      MakesAppend(init, last, row);
      hide DistinctLogs, Makes;
      StoredCounts(init, row);
    }
  }

  lemma SameStored(a: seq<ChainLog>, b: seq<ChainLog>)
    requires DistinctLogs(a) && DistinctLogs(b) && forall l :: l in a <==> l in b
    ensures multiset(Stored(a)) == multiset(Stored(b))
  {
    forall row ensures multiset(Stored(a))[row] == multiset(Stored(b))[row] {
      assert Makes(a, row) == Makes(b, row);
      hide DistinctLogs;
      StoredCounts(a, row);
      StoredCounts(b, row);
    }
  }

  // ----- handling logs -----

  lemma HandleGrows(e: Env, s: Store, l: ChainLog, applied: bool)
    requires !l.removed
    ensures var after := HandleOne(e, s, l, applied);
            && Settled(after.events, l) && s.cursor <= after.cursor
            && (forall x: ChainLog :: Settled(s.events, x) ==> Settled(after.events, x))
            && (forall x: ChainLog :: Settled(after.events, x) && x.key != l.key ==> Settled(s.events, x))
  {
    if !Settled(s.events, l) {
      RecordedAppend(s.events, EventRow(l.key, l.event.value));
    }
    hide Recorded, HandleRows;
  }

  /** A new log adds its event, and its update if that is applied. */
  lemma HandleNew(e: Env, s: Store, l: ChainLog, applied: bool)
    requires !l.removed && !Settled(s.events, l)
    ensures var after := HandleOne(e, s, l, applied);
            && after.cursor == Max(s.cursor, l.key.block)
            && after.events == s.events + [EventRow(l.key, l.event.value)]
            && after.book == RunUpdates(if applied then UpdatesOfLog(l, e.junk) else [], s.book)
  {
    hide HandleRows, Recorded, UpdateList;
    HandleRowsRuns(l.event.value, e.junk, s.book);
  }

  lemma SettledIsFree(e: Env, s: Store, l: ChainLog, applied: bool)
    requires Settled(s.events, l)
    ensures HandleOne(e, s, l, applied) == s
  {
  }

  lemma NoUpdates(rows: seq<Row>)
    ensures RunUpdates([], rows) == rows
  {
  }

  /** An uninterrupted pass stores the new logs and applies their updates, in chain order. */
  lemma {:induction false} PassIsNew(e: Env, s: Store, logs: seq<ChainLog>)
    requires DistinctLogs(logs) && forall l <- logs :: !l.removed
    ensures var added := New(s.events, logs);
            && HandleAll(e, s, logs).events == s.events + Stored(added)
            && HandleAll(e, s, logs).book == RunUpdates(Gather(added, LogUpdates(e.junk)), s.book)
    decreases |logs|
  {
    hide HandleOne, RunUpdates, UpdatesOfLog, Settled, Recorded;
    if logs == [] {
      NoUpdates(s.book);
    } else {
      var init, l := logs[..|logs| - 1], logs[|logs| - 1];
      var added, before := New(s.events, init), HandleAll(e, s, init);
      PassIsNew(e, s, init);
      StillNew(s.events, init, l);
      assert l in logs;
      if Settled(s.events, l) {
        SettledIsFree(e, before, l, true);
        assert New(s.events, logs) == added;
      } else {
        assert New(s.events, logs) == added + [l];
        HandleNew(e, before, l, true);
        StoredAppend(added, l);
        GatherRuns(added, l, LogUpdates(e.junk), s.book);
      }
    }
  }

  /** When its turn comes, a log is new exactly if it was new to the store. */
  lemma StillNew(events: seq<EventRow>, before: seq<ChainLog>, l: ChainLog)
    requires forall i :: 0 <= i < |before| ==> before[i].key != l.key
    ensures Settled(events + Stored(New(events, before)), l) <==> Settled(events, l)
    ensures !Settled(events, l) ==> l.event.Some?
  {
    StoredKeys(events, New(events, before));
    NewAre(events, before);
    hide Recorded;
    forall x <- New(events, before) ensures x.key != l.key {
      var k :| 0 <= k < |before| && before[k] == x;
    }
  }

  // ----- what holds in every run -----

  /** The position up to which logs have been passed: where the rest of the poll, or the next one, starts. */
  ghost function Position(e: Env, p: Proc): int {
    match p.poll
    case Idle => Upto(e.chain, p.store.cursor)
    case Polling(to, rest) => Upto(e.chain, to) - |rest|
  }

  /** Cursors in order, and the rest of a poll is a tail of its range. */
  ghost predicate Ordered(e: Env, p0: Proc, p: Proc) {
    var from := p0.store.cursor;
    && from <= p.saved <= p.store.cursor <= p.reached && p.reached + e.confirmations <= p.head
    && (p.saving.Some? ==> from <= p.saving.value <= p.store.cursor)
    && Upto(e.chain, from) <= Position(e, p) <= Upto(e.chain, p.reached)
    && (p.poll.Polling? ==>
          p.store.cursor <= p.poll.to <= p.reached && p.poll.rest == e.chain[Position(e, p)..Upto(e.chain, p.poll.to)])
    && (forall l <- p.failed :: l in e.chain && from < l.key.block <= p.reached)
  }

  /** A log of the run's range that was new to the starting store. */
  ghost predicate Fresh(e: Env, p0: Proc, c: uint64, l: ChainLog) {
    l in e.chain && p0.store.cursor < l.key.block <= c && !Settled(p0.store.events, l)
  }

  /** The tables are the starting ones with the history's events and applied updates. */
  ghost predicate Kept(e: Env, p0: Proc, p: Proc) {
    && p.store.events == p0.store.events + Stored(Logs(p.history))
    && p.store.book == RunUpdates(Gather(p.history, AppliedUpdates(e.junk)), p0.store.book)
    && DistinctLogs(Logs(p.history)) && forall l <- Logs(p.history) :: Fresh(e, p0, p.reached, l)
  }

  lemma OrderedBegin(e: Env, p0: Proc, p: Proc, latest: uint64)
    requires Started(e, p0) && Ordered(e, p0, p)
    ensures Ordered(e, p0, Do(e, p, Begin(latest))) && Position(e, Do(e, p, Begin(latest))) == Position(e, p)
  {
    hide Fetch, Upto, ValidChain;
    if p.poll.Idle? && latest <= p.head && p.store.cursor + 1 + e.confirmations <= latest {
      var to := latest - e.confirmations;
      FetchIsSlice(e.chain, p.store.cursor, to);
      UptoMonotone(e.chain, p.reached, Max(p.reached, to));
    }
  }

  /** The next log of a poll is the one at the position. */
  lemma NextLog(e: Env, p0: Proc, p: Proc)
    requires Started(e, p0) && Ordered(e, p0, p) && p.poll.Polling? && p.poll.rest != []
    ensures 0 <= Position(e, p) < Upto(e.chain, p.poll.to) && p.poll.rest[0] == e.chain[Position(e, p)]
    ensures p.poll.rest[0] in e.chain && p0.store.cursor < p.poll.rest[0].key.block <= p.poll.to && !p.poll.rest[0].removed
    ensures p.poll.rest[1..] == e.chain[Position(e, p) + 1..Upto(e.chain, p.poll.to)]
  {
    UptoSplits(e.chain, p0.store.cursor);
    UptoSplits(e.chain, p.poll.to);
    hide Upto;
    assert e.chain[Position(e, p)] in e.chain;
  }

  lemma OrderedNext(e: Env, p0: Proc, p: Proc, outcome: Outcome)
    requires Started(e, p0) && Ordered(e, p0, p) && p.poll.Polling? && p.poll.rest != []
    ensures Ordered(e, p0, HandleFirst(e, p, outcome))
    ensures Position(e, HandleFirst(e, p, outcome)) == Position(e, p) + 1
  {
    var l := p.poll.rest[0];
    NextLog(e, p0, p);
    UptoMonotone(e.chain, p.poll.to, p.reached);
    hide Upto, ValidChain, HandleOne, Settled;
    if !Settled(p.store.events, l) && outcome != Failed {
      HandleNew(e, p.store, l, outcome == Handled);
    }
  }

  lemma OrderedFinish(e: Env, p0: Proc, p: Proc)
    requires Started(e, p0) && Ordered(e, p0, p)
    ensures Ordered(e, p0, Do(e, p, Finish)) && Position(e, Do(e, p, Finish)) == Position(e, p)
  {
    hide Upto, ValidChain;
  }

  lemma OrderedRestart(e: Env, p0: Proc, p: Proc)
    requires Started(e, p0) && Ordered(e, p0, p)
    ensures Ordered(e, p0, Do(e, p, Restart)) && Position(e, Do(e, p, Restart)) == Upto(e.chain, p.saved)
  {
    UptoMonotone(e.chain, p0.store.cursor, p.saved);
    UptoMonotone(e.chain, p.saved, p.reached);
    hide Upto, ValidChain;
  }

  /** A step moves the position only by handling a log or by restarting. */
  lemma OrderedStep(e: Env, p0: Proc, p: Proc, act: Action)
    requires Started(e, p0) && Ordered(e, p0, p)
    ensures Ordered(e, p0, Do(e, p, act))
    ensures !act.HandleNext? && !act.Restart? ==> Position(e, Do(e, p, act)) == Position(e, p)
  {
    hide Upto, ValidChain, Fetch, HandleFirst;
    match act
    case Begin(latest) => OrderedBegin(e, p0, p, latest);
    case HandleNext(outcome) => if p.poll.Polling? && p.poll.rest != [] { OrderedNext(e, p0, p, outcome); }
    case Finish => OrderedFinish(e, p0, p);
    case Restart => OrderedRestart(e, p0, p);
    case NewHead(_) =>
    case ReadCursor =>
    case WriteCursor(_) =>
  }

  lemma LogsAppend(history: seq<Entry>, x: Entry)
    ensures Logs(history + [x]) == Logs(history) + [x.l]
  {
  }

  /** A log that is not settled is fresh, and the history does not hold it. */
  lemma NextIsFresh(e: Env, p0: Proc, p: Proc)
    requires Started(e, p0) && Ordered(e, p0, p) && Kept(e, p0, p) && p.poll.Polling? && p.poll.rest != []
    requires !Settled(p.store.events, p.poll.rest[0])
    ensures Fresh(e, p0, p.reached, p.poll.rest[0]) && !p.poll.rest[0].removed && p.poll.rest[0].event.Some?
    ensures DistinctLogs(Logs(p.history) + [p.poll.rest[0]])
  {
    var l, logs := p.poll.rest[0], Logs(p.history);
    NextLog(e, p0, p);
    StoredKeys(p0.store.events, logs);
    hide Ordered, ValidChain, Logs, Stored, Recorded, RunUpdates, Gather;
    forall i | 0 <= i < |logs| ensures logs[i].key != l.key {
      assert logs[i] in logs;
    }
  }

  lemma FirstIsStored(e: Env, p: Proc, applied: bool)
    requires p.poll.Polling? && p.poll.rest != [] && !Settled(p.store.events, p.poll.rest[0])
    ensures var p' := HandleFirst(e, p, if applied then Handled else Unapplied);
            && p'.store == HandleOne(e, p.store, p.poll.rest[0], applied) && p'.reached == p.reached
            && p'.history == p.history + [Entry(p.poll.rest[0], applied)]
  {
    hide HandleOne, Settled;
  }

  lemma KeptNext(e: Env, p0: Proc, p: Proc, applied: bool)
    requires Started(e, p0) && Ordered(e, p0, p) && Kept(e, p0, p) && p.poll.Polling? && p.poll.rest != []
    requires !Settled(p.store.events, p.poll.rest[0])
    ensures Kept(e, p0, HandleFirst(e, p, if applied then Handled else Unapplied))
  {
    hide HandleFirst, HandleOne, RunUpdates, Gather, Stored, Settled, UpdatesOfLog, Ordered, Started, Fresh, DistinctLogs;
    var l, x, logs := p.poll.rest[0], Entry(p.poll.rest[0], applied), Logs(p.history);
    FirstIsStored(e, p, applied);
    NextIsFresh(e, p0, p);
    HandleNew(e, p.store, l, applied);
    LogsAppend(p.history, x);
    hide Logs;
    StoredAppend(logs, l);
    GatherRuns(p.history, x, AppliedUpdates(e.junk), p0.store.book);
    assert p0.store.events + (Stored(logs) + [EventRow(l.key, l.event.value)])
        == p0.store.events + Stored(logs) + [EventRow(l.key, l.event.value)];
  }

  lemma KeptStep(e: Env, p0: Proc, p: Proc, act: Action)
    requires Started(e, p0) && Ordered(e, p0, p) && Kept(e, p0, p)
    ensures Kept(e, p0, Do(e, p, act)) && p.failed <= Do(e, p, act).failed
  {
    hide Ordered, HandleOne, RunUpdates, Gather, Stored, Logs, Fetch, Recorded;
    if act.HandleNext? && p.poll.Polling? && p.poll.rest != [] {
      if !Settled(p.store.events, p.poll.rest[0]) && act.outcome != Failed {
        KeptNext(e, p0, p, act.outcome == Handled);
      }
    }
  }

  lemma {:induction false} RunKept(e: Env, p0: Proc, p: Proc, actions: seq<Action>)
    requires Started(e, p0) && Ordered(e, p0, p) && Kept(e, p0, p)
    ensures Ordered(e, p0, Run(e, p, actions)) && Kept(e, p0, Run(e, p, actions))
    ensures p.failed <= Run(e, p, actions).failed
    decreases |actions|
  {
    if actions == [] {
    } else {
      OrderedStep(e, p0, p, actions[0]);
      KeptStep(e, p0, p, actions[0]);
      hide Ordered, Kept, Do;
      RunKept(e, p0, Do(e, p, actions[0]), actions[1..]);
    }
  }

  lemma StartedKept(e: Env, p0: Proc)
    requires Started(e, p0)
    ensures Ordered(e, p0, p0) && Kept(e, p0, p0)
  {
    NoUpdates(p0.store.book);
    assert p0.store.events + [] == p0.store.events && Logs([]) == [];
  }

  // ----- what holds while restarts are good -----

  /** Passed or not: the log at position k is handled, or has failed. */
  ghost predicate Accounted(e: Env, p: Proc, k: int) {
    0 <= k < |e.chain| && (Settled(p.store.events, e.chain[k]) || e.chain[k] in p.failed)
  }

  /** Every position passed since the start is accounted for. */
  ghost predicate Tracks(e: Env, p0: Proc, p: Proc) {
    forall k :: Upto(e.chain, p0.store.cursor) <= k < Position(e, p) ==> Accounted(e, p, k)
  }

  lemma TracksNext(e: Env, p0: Proc, p: Proc, outcome: Outcome)
    requires Started(e, p0) && Ordered(e, p0, p) && Tracks(e, p0, p) && p.poll.Polling? && p.poll.rest != []
    ensures Tracks(e, p0, HandleFirst(e, p, outcome))
  {
    var p' := HandleFirst(e, p, outcome);
    OrderedNext(e, p0, p, outcome);
    NextLog(e, p0, p);
    HandleGrows(e, p.store, p.poll.rest[0], outcome == Handled);
    hide Upto, ValidChain, Ordered, HandleOne, Settled, Position;
    forall k | Upto(e.chain, p0.store.cursor) <= k < Position(e, p') ensures Accounted(e, p', k) {
      assert k < Position(e, p) ==> Accounted(e, p, k);
    }
  }

  lemma SettledFromStart(e: Env, from: uint64, p: Proc, c: uint64, k: nat)
    requires ValidChain(e.chain) && from <= c && SettledUpto(e, from, p, c)
    requires Upto(e.chain, from) <= k < Upto(e.chain, c)
    ensures Settled(p.store.events, e.chain[k])
  {
    hide Upto, Fetch, ValidChain, Settled;
    FetchIsSlice(e.chain, from, c);
    var fetched := Fetch(e.chain, from, c);
    assert e.chain[k] == fetched[k - Upto(e.chain, from)] && e.chain[k] in fetched;
  }

  lemma TracksRestart(e: Env, p0: Proc, p: Proc)
    requires Started(e, p0) && Ordered(e, p0, p) && SettledUpto(e, p0.store.cursor, p, p.saved)
    ensures Tracks(e, p0, Do(e, p, Restart))
  {
    hide Upto, ValidChain, SettledUpto, Settled;
    var p' := Do(e, p, Restart);
    OrderedRestart(e, p0, p);
    forall k | Upto(e.chain, p0.store.cursor) <= k < Position(e, p') ensures Accounted(e, p', k) {
      SettledFromStart(e, p0.store.cursor, p, p.saved, k);
    }
  }

  lemma TracksStep(e: Env, p0: Proc, p: Proc, act: Action)
    requires Started(e, p0) && Ordered(e, p0, p) && Tracks(e, p0, p)
    requires act.Restart? ==> SettledUpto(e, p0.store.cursor, p, p.saved)
    ensures Tracks(e, p0, Do(e, p, act))
  {
    if act.HandleNext? {
      hide HandleFirst, Upto, Tracks, Ordered;
      if p.poll.Polling? && p.poll.rest != [] {
        TracksNext(e, p0, p, act.outcome);
      }
    } else if act.Restart? {
      TracksRestart(e, p0, p);
    } else {
      OrderedStep(e, p0, p, act);
      hide Ordered, Upto, Position, Settled, Fetch;
      assert forall k :: Accounted(e, p, k) ==> Accounted(e, Do(e, p, act), k);
    }
  }

  lemma {:induction false} RunTracks(e: Env, p0: Proc, p: Proc, actions: seq<Action>)
    requires Started(e, p0) && Ordered(e, p0, p) && Tracks(e, p0, p) && RestartsGood(e, p0.store.cursor, p, actions)
    ensures Tracks(e, p0, Run(e, p, actions))
    decreases |actions|
  {
    if actions == [] {
    } else {
      OrderedStep(e, p0, p, actions[0]);
      TracksStep(e, p0, p, actions[0]);
      hide Ordered, Tracks, Do;
      RunTracks(e, p0, Do(e, p, actions[0]), actions[1..]);
    }
  }

  /** Caught up over good restarts and with every failure repaired, no log of the range is left out. */
  lemma AllSettled(e: Env, p0: Proc, p: Proc)
    requires Started(e, p0) && Ordered(e, p0, p) && Tracks(e, p0, p) && CaughtUp(p) && FailuresRepaired(p)
    ensures SettledUpto(e, p0.store.cursor, p, p.store.cursor)
  {
    var from, c := p0.store.cursor, p.store.cursor;
    FetchIsSlice(e.chain, from, c);
    hide Upto, Fetch, Settled, Ordered, Tracks, FailuresRepaired;
    forall l <- Fetch(e.chain, from, c) ensures Settled(p.store.events, l) {
      var fetched := Fetch(e.chain, from, c);
      var i :| 0 <= i < |fetched| && fetched[i] == l;
      NoneLeft(e, p0, p, Upto(e.chain, from) + i);
    }
  }

  lemma NoneLeft(e: Env, p0: Proc, p: Proc, k: int)
    requires Tracks(e, p0, p) && FailuresRepaired(p) && Upto(e.chain, p0.store.cursor) <= k < Position(e, p)
    ensures 0 <= k < |e.chain| && Settled(p.store.events, e.chain[k])
  {
    hide Upto, Settled;
    assert Accounted(e, p, k);
  }

  // ----- what a bad restart costs -----

  /** A log below every cursor there is, which no pending fetch will bring back. */
  ghost predicate Lost(e: Env, p: Proc, l: ChainLog) {
    && l in e.chain && !Settled(p.store.events, l) && 0 < l.key.block <= p.saved && l.key.block <= p.store.cursor
    && (p.saving.Some? ==> l.key.block <= p.saving.value)
    && (p.poll.Polling? ==> forall x <- p.poll.rest :: x in e.chain && x != l)
  }

  lemma LostStays(e: Env, p: Proc, l: ChainLog, act: Action)
    requires ValidChain(e.chain) && Lost(e, p, l)
    ensures Lost(e, Do(e, p, act), l)
  {
    hide HandleOne, Settled, Fetch, ValidChain;
    match act
    case Begin(latest) =>
      if latest >= e.confirmations {
        FetchWithin(e.chain, p.store.cursor, latest - e.confirmations);
      }
    case HandleNext(outcome) =>
      if p.poll.Polling? && p.poll.rest != [] {
        OthersKept(e, p, l, outcome == Handled);
      }
    case _ =>
  }

  /** Handling the next log does not settle another one. */
  lemma OthersKept(e: Env, p: Proc, l: ChainLog, applied: bool)
    requires ValidChain(e.chain) && l in e.chain && p.poll.Polling? && p.poll.rest != []
    requires p.poll.rest[0] in e.chain && p.poll.rest[0] != l
    ensures Settled(HandleOne(e, p.store, p.poll.rest[0], applied).events, l) ==> Settled(p.store.events, l)
    ensures p.store.cursor <= HandleOne(e, p.store, p.poll.rest[0], applied).cursor
  {
    DistinctKeys(e.chain, p.poll.rest[0], l);
    HandleGrows(e, p.store, p.poll.rest[0], applied);
  }

  lemma {:induction false} BadRestartLoses(e: Env, from: uint64, p: Proc, actions: seq<Action>) returns (l: ChainLog)
    requires ValidChain(e.chain) && !RestartsGood(e, from, p, actions)
    ensures Lost(e, Run(e, p, actions), l) && from < l.key.block
    decreases |actions|
  {
    var next := Do(e, p, actions[0]);
    if actions[0].Restart? && !SettledUpto(e, from, p, p.saved) {
      FetchWithin(e.chain, from, p.saved);
      l :| l in Fetch(e.chain, from, p.saved) && !Settled(p.store.events, l);
      LostForever(e, next, l, actions[1..]);
    } else {
      hide Do;
      l := BadRestartLoses(e, from, next, actions[1..]);
    }
  }

  lemma {:induction false} LostForever(e: Env, p: Proc, l: ChainLog, actions: seq<Action>)
    requires ValidChain(e.chain) && Lost(e, p, l)
    ensures Lost(e, Run(e, p, actions), l)
    decreases |actions|
  {
    if actions == [] {
    } else {
      LostStays(e, p, l, actions[0]);
      hide Lost, Do;
      LostForever(e, Do(e, p, actions[0]), l, actions[1..]);
    }
  }

  // ----- the exact condition -----

  /** What an uninterrupted pass over the range stores. */
  lemma ExpectedEvents(e: Env, s: Store, c: uint64)
    requires ValidChain(e.chain) && s.cursor <= c
    ensures var added := New(s.events, Fetch(e.chain, s.cursor, c));
            && Expected(e, s, c).events == s.events + Stored(added)
            && Expected(e, s, c).book == RunUpdates(PassUpdates(e, s, c), s.book)
            && DistinctLogs(added)
            && (forall l :: l in added <==> l in e.chain && s.cursor < l.key.block <= c && !Settled(s.events, l))
  {
    var fetched := Fetch(e.chain, s.cursor, c);
    FetchedDistinct(e.chain, s.cursor, c);
    FetchWithin(e.chain, s.cursor, c);
    hide Fetch, Settled, HandleAll, RunUpdates, Gather, Stored, New, ValidChain;
    PassIsNew(e, s, fetched);
    NewAre(s.events, fetched);
    NewDistinct(s.events, fetched);
  }

  lemma ContentsSettle(e: Env, p0: Proc, p: Proc)
    requires Started(e, p0) && Ordered(e, p0, p)
    requires multiset(p.store.events) == multiset(Expected(e, p0.store, p.store.cursor).events)
    ensures SettledUpto(e, p0.store.cursor, p, p.store.cursor)
  {
    var added := New(p0.store.events, Fetch(e.chain, p0.store.cursor, p.store.cursor));
    ExpectedEvents(e, p0.store, p.store.cursor);
    SameRecorded(p.store.events, Expected(e, p0.store, p.store.cursor).events);
    StoredKeys(p0.store.events, added);
    FetchWithin(e.chain, p0.store.cursor, p.store.cursor);
    hide Fetch, Expected, Stored, New, Recorded, Ordered, ValidChain, RunUpdates;
    forall l <- Fetch(e.chain, p0.store.cursor, p.store.cursor) ensures Settled(p.store.events, l) {
      assert l.event.Some? && !Settled(p0.store.events, l) ==> l in added && Holds(added, l.key);
    }
  }

  lemma SettledContents(e: Env, p0: Proc, p: Proc)
    requires Started(e, p0) && Ordered(e, p0, p) && Kept(e, p0, p) && p.store.cursor == p.reached
    requires SettledUpto(e, p0.store.cursor, p, p.store.cursor)
    ensures multiset(p.store.events) == multiset(Expected(e, p0.store, p.store.cursor).events)
  {
    var added, logs := New(p0.store.events, Fetch(e.chain, p0.store.cursor, p.store.cursor)), Logs(p.history);
    ExpectedEvents(e, p0.store, p.store.cursor);
    StoredKeys(p0.store.events, logs);
    FetchWithin(e.chain, p0.store.cursor, p.store.cursor);
    hide Fetch, Expected, Stored, New, Logs, Recorded, Ordered, RunUpdates, Gather;
    forall l ensures l in logs <==> l in added {
      if l in added {
        assert Settled(p.store.events, l) && Holds(logs, l.key);
        FoundByKey(e.chain, logs, l);
      }
    }
    hide ValidChain, Settled, Holds;
    SameStored(logs, added);
  }

  lemma SameRecorded(a: seq<EventRow>, b: seq<EventRow>)
    requires multiset(a) == multiset(b)
    ensures forall key :: Recorded(a, key) <==> Recorded(b, key)
  {
    forall r ensures r in a <==> r in b {
      assert r in a <==> r in multiset(a);
      assert r in b <==> r in multiset(b);
    }
  }

  /** On a valid chain the log with a key is the one of the list with that key. */
  lemma FoundByKey(chain: seq<ChainLog>, logs: seq<ChainLog>, l: ChainLog)
    requires ValidChain(chain) && l in chain && forall x <- logs :: x in chain
    requires Holds(logs, l.key)
    ensures l in logs
  {
    var x :| x in logs && x.key == l.key;
    if x != l {
      DistinctKeys(chain, x, l);
    }
  }

  lemma FetchedDistinct(chain: seq<ChainLog>, lo: uint64, hi: uint64)
    requires ValidChain(chain) && lo <= hi
    ensures DistinctLogs(Fetch(chain, lo, hi)) && forall l <- Fetch(chain, lo, hi) :: !l.removed
  {
    FetchIsSlice(chain, lo, hi);
    hide Fetch, Upto;
  }

  /** The updates of an uninterrupted pass up to cursor c, in order. */
  ghost function PassUpdates(e: Env, s: Store, c: uint64): seq<Update> {
    Gather(New(s.events, Fetch(e.chain, s.cursor, c)), LogUpdates(e.junk))
  }

  /**
   * However often the process stops and restarts, and whatever fails, once it has caught up its
   * two tables hold what an uninterrupted pass over the chain leaves in them, exactly when every
   * restart resumed from a cursor with no unhandled log at or below it, every log whose handling
   * failed has been handled since, and every Active order gets from the first update that really
   * reached it the status that the first one in chain order gives it.
   */
  lemma RecoveryIff(e: Env, p0: Proc, actions: seq<Action>)
    requires Started(e, p0) && CaughtUp(Run(e, p0, actions))
    ensures var p := Run(e, p0, actions);
            SameContents(p.store, Expected(e, p0.store, p.store.cursor)) <==>
            && RestartsGood(e, p0.store.cursor, p0, actions) && FailuresRepaired(p)
            && forall r <- p0.store.book ::
                 Alike(Gather(p.history, AppliedUpdates(e.junk)), PassUpdates(e, p0.store, p.store.cursor), r)
  {
    var p := Run(e, p0, actions);
    StartedKept(e, p0);
    RunKept(e, p0, p0, actions);
    EventsRecoverIff(e, p0, actions);
    ExpectedEvents(e, p0.store, p.store.cursor);
    if SettledUpto(e, p0.store.cursor, p, p.store.cursor) {
      SettledContents(e, p0, p);
    } else if SameContents(p.store, Expected(e, p0.store, p.store.cursor)) {
      ContentsSettle(e, p0, p);
    }
    SameBookIff(Gather(p.history, AppliedUpdates(e.junk)), PassUpdates(e, p0.store, p.store.cursor), p0.store.book);
    hide RunUpdates, Gather, Expected, PassUpdates, New, Stored, Logs, Alike, Run, Ordered, RestartsGood, SettledUpto;
  }

  lemma EventsRecoverIff(e: Env, p0: Proc, actions: seq<Action>)
    requires Started(e, p0) && CaughtUp(Run(e, p0, actions))
    ensures SettledUpto(e, p0.store.cursor, Run(e, p0, actions), Run(e, p0, actions).store.cursor) <==>
            RestartsGood(e, p0.store.cursor, p0, actions) && FailuresRepaired(Run(e, p0, actions))
  {
    var p, from := Run(e, p0, actions), p0.store.cursor;
    StartedKept(e, p0);
    RunKept(e, p0, p0, actions);
    FetchWithin(e.chain, from, p.store.cursor);
    if RestartsGood(e, from, p0, actions) {
      RunTracks(e, p0, p0, actions);
      if FailuresRepaired(p) {
        AllSettled(e, p0, p);
      }
    } else {
      var l := BadRestartLoses(e, from, p0, actions);
    }
  }

  // ----- without a restart nothing is tried again -----

  /** A log that no poll will fetch again while the process runs. */
  ghost predicate Skipped(e: Env, p: Proc, l: ChainLog) {
    && l in e.chain && !Settled(p.store.events, l)
    && match p.poll
       case Idle => l.key.block <= p.store.cursor
       case Polling(to, rest) => l.key.block <= to && l !in rest
  }

  lemma SkippedStays(e: Env, p0: Proc, p: Proc, l: ChainLog, act: Action)
    requires Started(e, p0) && Ordered(e, p0, p) && Skipped(e, p, l) && !act.Restart?
    ensures Skipped(e, Do(e, p, act), l)
  {
    hide HandleOne, Settled, Fetch, ValidChain, Upto;
    match act
    case Begin(latest) =>
      if latest >= e.confirmations {
        FetchWithin(e.chain, p.store.cursor, latest - e.confirmations);
      }
    case HandleNext(outcome) =>
      if p.poll.Polling? && p.poll.rest != [] {
        NextLog(e, p0, p);
        OthersKept(e, p, l, outcome == Handled);
      }
    case _ =>
  }

  lemma NowSkipped(e: Env, p0: Proc, p: Proc)
    requires Started(e, p0) && Ordered(e, p0, p) && p.poll.Polling? && p.poll.rest != []
    requires !Settled(p.store.events, p.poll.rest[0])
    ensures Skipped(e, HandleFirst(e, p, Failed), p.poll.rest[0])
  {
    NextLog(e, p0, p);
    NotAfter(e.chain, Position(e, p), Upto(e.chain, p.poll.to));
    hide Upto, Settled, ValidChain, Ordered;
  }

  lemma StepSkips(e: Env, p0: Proc, p: Proc, act: Action)
    requires Started(e, p0) && Ordered(e, p0, p) && !act.Restart?
    requires forall l <- p.failed :: Skipped(e, p, l)
    ensures forall l <- Do(e, p, act).failed :: Skipped(e, Do(e, p, act), l)
  {
    hide Ordered, Skipped, Settled;
    forall l <- Do(e, p, act).failed ensures Skipped(e, Do(e, p, act), l) {
      if l in p.failed {
        SkippedStays(e, p0, p, l, act);
      } else {
        NowSkipped(e, p0, p);
      }
    }
  }

  lemma {:induction false} FailedAreSkipped(e: Env, p0: Proc, p: Proc, actions: seq<Action>)
    requires Started(e, p0) && Ordered(e, p0, p) && forall a <- actions :: !a.Restart?
    requires forall l <- p.failed :: Skipped(e, p, l)
    ensures forall l <- Run(e, p, actions).failed :: Skipped(e, Run(e, p, actions), l)
    ensures RestartsGood(e, p0.store.cursor, p, actions)
    decreases |actions|
  {
    if actions == [] {
    } else {
      OrderedStep(e, p0, p, actions[0]);
      StepSkips(e, p0, p, actions[0]);
      hide Ordered, Skipped, Do;
      FailedAreSkipped(e, p0, Do(e, p, actions[0]), actions[1..]);
    }
  }

  // ----- runs in which no handling fails keep the order of the chain -----

  /** The history is that of the first n logs of the chain, and the position is no further. */
  ghost predicate InOrder(e: Env, p0: Proc, p: Proc, n: nat) {
    var a := Upto(e.chain, p0.store.cursor);
    && a <= n <= Upto(e.chain, p.reached) && Position(e, p) <= n && p.failed == {}
    && Logs(p.history) == New(p0.store.events, e.chain[a..n])
  }

  /** A log before n is settled; one from n on is settled exactly if it was at the start. */
  lemma InOrderSettled(e: Env, p0: Proc, p: Proc, n: nat, k: nat)
    requires Started(e, p0) && Kept(e, p0, p) && InOrder(e, p0, p, n)
    requires Upto(e.chain, p0.store.cursor) <= k < |e.chain|
    ensures k < n ==> Settled(p.store.events, e.chain[k])
    ensures k >= n ==> (Settled(p.store.events, e.chain[k]) <==> Settled(p0.store.events, e.chain[k]))
  {
    var a, l := Upto(e.chain, p0.store.cursor), e.chain[k];
    var before := e.chain[a..n];
    hide Upto, Stored, New, Logs, RunUpdates, Gather, Fresh, Recorded, Position;
    if k < n {
      assert before[k - a] == l;
      NewIsSettled(p0.store.events, before, l);
    } else {
      StillNew(p0.store.events, before, l);
    }
  }

  lemma NewIsSettled(events: seq<EventRow>, logs: seq<ChainLog>, l: ChainLog)
    requires l in logs
    ensures Settled(events + Stored(New(events, logs)), l)
  {
    NewAre(events, logs);
    StoredKeys(events, New(events, logs));
    hide Recorded, New, Stored;
  }

  /** A log that has been passed before is settled, and nothing happens. */
  lemma BehindStays(e: Env, p0: Proc, p: Proc, n: nat, outcome: Outcome)
    requires InOrder(e, p0, p, n) && Position(e, p) < n && p.poll.Polling? && p.poll.rest != []
    requires Settled(p.store.events, p.poll.rest[0])
    ensures InOrder(e, p0, HandleFirst(e, p, outcome), n)
  {
    hide Upto, Settled, New, Logs;
  }

  lemma FrontMoves(e: Env, p0: Proc, p: Proc, n: nat, outcome: Outcome)
    requires InOrder(e, p0, p, n) && Position(e, p) == n < Upto(e.chain, p.reached) <= |e.chain|
    requires p.poll.Polling? && p.poll.rest != [] && p.poll.rest[0] == e.chain[n] && outcome != Failed
    requires Settled(p.store.events, e.chain[n]) <==> Settled(p0.store.events, e.chain[n])
    ensures InOrder(e, p0, HandleFirst(e, p, outcome), n + 1)
  {
    LongerHistory(p0.store.events, e.chain, Upto(e.chain, p0.store.cursor), n, p.history, Entry(e.chain[n], outcome == Handled));
    hide Upto, Settled, New, Logs, HandleOne;
  }

  lemma InOrderNext(e: Env, p0: Proc, p: Proc, n: nat, outcome: Outcome) returns (n': nat)
    requires Started(e, p0) && Ordered(e, p0, p) && Kept(e, p0, p) && InOrder(e, p0, p, n) && outcome != Failed
    requires p.poll.Polling? && p.poll.rest != []
    ensures InOrder(e, p0, HandleFirst(e, p, outcome), n')
  {
    hide Upto, Ordered, Kept, Settled, Started, New, Logs, HandleFirst;
    NextLog(e, p0, p);
    PositionBelow(e, p0, p);
    InOrderSettled(e, p0, p, n, Position(e, p));
    if Position(e, p) < n {
      n' := n;
      BehindStays(e, p0, p, n, outcome);
    } else {
      n' := n + 1;
      FrontMoves(e, p0, p, n, outcome);
    }
  }

  lemma PositionBelow(e: Env, p0: Proc, p: Proc)
    requires Started(e, p0) && Ordered(e, p0, p) && p.poll.Polling? && p.poll.rest != []
    ensures Upto(e.chain, p0.store.cursor) <= Position(e, p) < Upto(e.chain, p.reached) <= |e.chain|
  {
    UptoMonotone(e.chain, p.poll.to, p.reached);
    hide Upto;
  }

  /** The history that the next log of the chain leaves. */
  lemma LongerHistory(events: seq<EventRow>, chain: seq<ChainLog>, a: nat, n: nat, history: seq<Entry>, x: Entry)
    requires a <= n < |chain| && x.l == chain[n] && Logs(history) == New(events, chain[a..n])
    ensures New(events, chain[a..n + 1]) == Logs(if Settled(events, x.l) then history else history + [x])
  {
    hide New, Logs, Settled;
    assert chain[a..n + 1] == chain[a..n] + [x.l];
    NewAppend(events, chain[a..n], x.l);
    LogsAppend(history, x);
  }

  /** A restart that leaves nothing out passes no log but settled ones. */
  lemma InOrderRestart(e: Env, p0: Proc, p: Proc, n: nat) returns (n': nat)
    requires Started(e, p0) && Ordered(e, p0, p) && Kept(e, p0, p) && InOrder(e, p0, p, n)
    requires SettledUpto(e, p0.store.cursor, p, p.saved)
    ensures InOrder(e, p0, Do(e, p, Restart), n')
  {
    var a, s := Upto(e.chain, p0.store.cursor), Upto(e.chain, p.saved);
    n' := if n < s then s else n;
    OrderedRestart(e, p0, p);
    UptoMonotone(e.chain, p.saved, p.reached);
    forall k | n <= k < n' ensures Settled(p0.store.events, e.chain[k]) {
      SettledFromStart(e, p0.store.cursor, p, p.saved, k);
      InOrderSettled(e, p0, p, n, k);
    }
    NothingNew(p0.store.events, e.chain, a, n, n');
    hide Upto, Ordered, Kept, Settled, ValidChain;
  }

  lemma {:induction false} NothingNew(events: seq<EventRow>, chain: seq<ChainLog>, a: nat, n: nat, m: nat)
    requires a <= n <= m <= |chain| && forall k :: n <= k < m ==> Settled(events, chain[k])
    ensures New(events, chain[a..m]) == New(events, chain[a..n])
    decreases m
  {
    hide Settled;
    if n == m {
    } else {
      NothingNew(events, chain, a, n, m - 1);
      assert chain[a..m] == chain[a..m - 1] + [chain[m - 1]];
      NewAppend(events, chain[a..m - 1], chain[m - 1]);
    }
  }

  lemma InOrderStep(e: Env, p0: Proc, p: Proc, n: nat, act: Action) returns (n': nat)
    requires Started(e, p0) && Ordered(e, p0, p) && Kept(e, p0, p) && InOrder(e, p0, p, n)
    requires act != HandleNext(Failed) || Do(e, p, act).failed == {}
    requires act.Restart? ==> SettledUpto(e, p0.store.cursor, p, p.saved)
    ensures InOrder(e, p0, Do(e, p, act), n')
  {
    n' := n;
    if act.HandleNext? {
      if p.poll.Polling? && p.poll.rest != [] {
        if act.outcome == Failed {
          SettledSkipped(e, p);
          n' := InOrderNext(e, p0, p, n, Handled);
        } else {
          n' := InOrderNext(e, p0, p, n, act.outcome);
        }
      }
    } else if act.Restart? {
      n' := InOrderRestart(e, p0, p, n);
    } else {
      OrderedStep(e, p0, p, act);
      UptoMonotone(e.chain, p.reached, Do(e, p, act).reached);
      hide Upto, Ordered, Position, Kept, New, Logs, Fetch, ValidChain;
    }
  }

  /** A failure that adds nothing to the failed logs met a settled one. */
  lemma SettledSkipped(e: Env, p: Proc)
    requires p.poll.Polling? && p.poll.rest != [] && HandleFirst(e, p, Failed).failed == {}
    ensures HandleFirst(e, p, Failed) == HandleFirst(e, p, Handled)
  {
    assert p.poll.rest[0] in p.failed + {p.poll.rest[0]};
  }

  lemma {:induction false} RunInOrder(e: Env, p0: Proc, p: Proc, n: nat, actions: seq<Action>) returns (n': nat)
    requires Started(e, p0) && Ordered(e, p0, p) && Kept(e, p0, p) && InOrder(e, p0, p, n)
    requires RestartsGood(e, p0.store.cursor, p, actions) && Run(e, p, actions).failed == {}
    ensures InOrder(e, p0, Run(e, p, actions), n')
    decreases |actions|
  {
    n' := n;
    if actions == [] {
    } else {
      var p' := Do(e, p, actions[0]);
      OrderedStep(e, p0, p, actions[0]);
      KeptStep(e, p0, p, actions[0]);
      RunKept(e, p0, p', actions[1..]);
      n' := InOrderStep(e, p0, p, n, actions[0]);
      hide Ordered, Kept, InOrder, Do;
      n' := RunInOrder(e, p0, p', n', actions[1..]);
    }
  }

  lemma StartedInOrder(e: Env, p0: Proc)
    requires Started(e, p0)
    ensures InOrder(e, p0, p0, Upto(e.chain, p0.store.cursor))
  {
    var a := Upto(e.chain, p0.store.cursor);
    assert e.chain[a..a] == [] && Logs([]) == [];
  }

  lemma InOrderAtEnd(e: Env, p0: Proc, p: Proc, n: nat)
    requires Started(e, p0) && Ordered(e, p0, p) && InOrder(e, p0, p, n) && CaughtUp(p)
    ensures Logs(p.history) == New(p0.store.events, Fetch(e.chain, p0.store.cursor, p.store.cursor))
  {
    hide Upto, Fetch, New, Logs, ValidChain;
    FetchIsSlice(e.chain, p0.store.cursor, p.store.cursor);
  }

  /** Caught up, the history holds exactly the new logs of the range, in chain order. */
  lemma HistoryInOrder(e: Env, p0: Proc, actions: seq<Action>)
    requires Started(e, p0) && CaughtUp(Run(e, p0, actions)) && RestartsGood(e, p0.store.cursor, p0, actions)
    requires Run(e, p0, actions).failed == {}
    ensures var p := Run(e, p0, actions);
            Logs(p.history) == New(p0.store.events, Fetch(e.chain, p0.store.cursor, p.store.cursor))
  {
    StartedKept(e, p0);
    StartedInOrder(e, p0);
    RunKept(e, p0, p0, actions);
    hide Started, Ordered, Kept, InOrder, CaughtUp, Run, RestartsGood;
    var n := RunInOrder(e, p0, p0, Upto(e.chain, p0.store.cursor), actions);
    InOrderAtEnd(e, p0, Run(e, p0, actions), n);
  }

  /**
   * The first entry that should have hit the Active row never reached the book, and the next one
   * that did and hits the row leads to another status, or there is none.
   */
  ghost predicate Misses(history: seq<Entry>, junk: string -> int, r: Row) {
    r.status == Active && exists k :: 0 <= k < |history| && MissesAt(history, junk, r, k)
  }

  ghost predicate MissesAt(history: seq<Entry>, junk: string -> int, r: Row, k: nat)
    requires k < |history|
  {
    var due := Verdict(UpdatesOfLog(history[k].l, junk), r);
    && due.Some? && !history[k].applied
    && (forall i :: 0 <= i < k ==> Verdict(UpdatesOfLog(history[i].l, junk), r).None?)
    && Verdict(Gather(history[k + 1..], AppliedUpdates(junk)), r) != due
  }

  /** What the lost and the applied updates make of a row, seen from the first entry that is due to hit it. */
  lemma {:induction false} FirstDue(history: seq<Entry>, junk: string -> int, r: Row) returns (k: nat)
    ensures k <= |history|
    ensures forall i :: 0 <= i < k ==> Verdict(UpdatesOfLog(history[i].l, junk), r).None?
    ensures k == |history| ==> Verdict(Gather(history, DueUpdates(junk)), r).None?
    ensures k == |history| ==> Verdict(Gather(history, AppliedUpdates(junk)), r).None?
    ensures k < |history| ==>
              var due := Verdict(UpdatesOfLog(history[k].l, junk), r);
              && due.Some? && Verdict(Gather(history, DueUpdates(junk)), r) == due
              && Verdict(Gather(history, AppliedUpdates(junk)), r)
                 == if history[k].applied then due else Verdict(Gather(history[k + 1..], AppliedUpdates(junk)), r)
  {
    NoVerdict(r);
    hide Verdict, UpdatesOfLog, Gather;
    if history == [] {
      k := 0;
      GatherNone(DueUpdates(junk));
      GatherNone(AppliedUpdates(junk));
    } else {
      var x, rest := history[0], history[1..];
      assert history == [x] + rest;
      GatherConcat([x], rest, DueUpdates(junk));
      GatherConcat([x], rest, AppliedUpdates(junk));
      GatherOne(x, DueUpdates(junk));
      GatherOne(x, AppliedUpdates(junk));
      VerdictConcat(UpdatesOfLog(x.l, junk), Gather(rest, DueUpdates(junk)), r);
      VerdictConcat(AppliedUpdates(junk)(x), Gather(rest, AppliedUpdates(junk)), r);
      if Verdict(UpdatesOfLog(x.l, junk), r).Some? {
        k := 0;
      } else {
        k := FirstDue(rest, junk, r);
        assert rest[k..] == history[k + 1..];
        assert k < |rest| ==> rest[k + 1..] == history[k + 2..];
        k := k + 1;
      }
    }
  }

  lemma NoVerdict(r: Row)
    ensures Verdict([], r).None?
  {
  }

  lemma GatherNone(f: Entry -> seq<Update>)
    ensures Gather([], f) == []
  {
  }

  lemma GatherOne(x: Entry, f: Entry -> seq<Update>)
    ensures Gather([x], f) == f(x)
  {
    assert [x][..0] == [];
  }

  /** The applied updates treat a row as all the due ones would, exactly when it misses none. */
  lemma MissesIff(history: seq<Entry>, junk: string -> int, r: Row)
    ensures Alike(Gather(history, AppliedUpdates(junk)), Gather(history, DueUpdates(junk)), r) <==> !Misses(history, junk, r)
  {
    var k := FirstDue(history, junk, r);
    hide Verdict, UpdatesOfLog, Gather;
    assert k < |history| ==>
             (MissesAt(history, junk, r, k) <==>
              Verdict(Gather(history, AppliedUpdates(junk)), r) != Verdict(Gather(history, DueUpdates(junk)), r));
    hide MissesAt;
    if Misses(history, junk, r) {
      var m :| 0 <= m < |history| && MissesAt(history, junk, r, m);
      MissesOnce(history, junk, r, k, m);
    } else if k < |history| && r.status == Active {
      assert !MissesAt(history, junk, r, k);
    }
  }

  /** A row misses an update nowhere but at the first that is due. */
  lemma MissesOnce(history: seq<Entry>, junk: string -> int, r: Row, k: nat, m: nat)
    requires k <= |history| && m < |history| && MissesAt(history, junk, r, m)
    requires forall i :: 0 <= i < k ==> Verdict(UpdatesOfLog(history[i].l, junk), r).None?
    requires k < |history| ==> Verdict(UpdatesOfLog(history[k].l, junk), r).Some?
    ensures m == k
  {
    hide Verdict, UpdatesOfLog, Gather;
  }

  lemma {:induction false} AppliedIsDue(history: seq<Entry>, junk: string -> int)
    requires forall x <- history :: x.applied
    ensures Gather(history, AppliedUpdates(junk)) == Gather(history, DueUpdates(junk))
  {
    hide UpdatesOfLog;
    if history == [] {
    } else {
      AppliedIsDue(history[..|history| - 1], junk);
    }
  }

  lemma {:induction false} DueIsLogs(history: seq<Entry>, junk: string -> int)
    ensures Gather(history, DueUpdates(junk)) == Gather(Logs(history), LogUpdates(junk))
  {
    hide UpdatesOfLog;
    if history == [] {
    } else {
      var init := history[..|history| - 1];
      DueIsLogs(init, junk);
      assert Logs(history)[..|history| - 1] == Logs(init);
    }
  }

  /**
   * While the process is not restarted, polling again does not make up for a failure: once
   * caught up the tables are complete exactly when no handling ever failed and no order misses
   * an update that was lost between its event and the book.
   */
  lemma NoRestartIff(e: Env, p0: Proc, actions: seq<Action>)
    requires Started(e, p0) && CaughtUp(Run(e, p0, actions)) && forall a <- actions :: !a.Restart?
    ensures var p := Run(e, p0, actions);
            SameContents(p.store, Expected(e, p0.store, p.store.cursor)) <==>
            p.failed == {} && forall r <- p0.store.book :: !Misses(p.history, e.junk, r)
  {
    var p := Run(e, p0, actions);
    StartedKept(e, p0);
    RecoveryIff(e, p0, actions);
    FailedAreSkipped(e, p0, p0, actions);
    if p.failed == {} {
      InOrderIff(e, p0, actions);
    } else {
      var l :| l in p.failed;
      assert Skipped(e, p, l);
    }
  }

  /** The same condition on the book for every run in which no handling fails and every restart is good. */
  lemma InOrderIff(e: Env, p0: Proc, actions: seq<Action>)
    requires Started(e, p0) && CaughtUp(Run(e, p0, actions)) && RestartsGood(e, p0.store.cursor, p0, actions)
    requires Run(e, p0, actions).failed == {}
    ensures var p := Run(e, p0, actions);
            SameContents(p.store, Expected(e, p0.store, p.store.cursor)) <==>
            forall r <- p0.store.book :: !Misses(p.history, e.junk, r)
  {
    var p := Run(e, p0, actions);
    RecoveryIff(e, p0, actions);
    HistoryInOrder(e, p0, actions);
    DueIsLogs(p.history, e.junk);
    hide Misses, Alike, Gather, SameContents, RestartsGood, New, Logs;
    forall r ensures Alike(Gather(p.history, AppliedUpdates(e.junk)), PassUpdates(e, p0.store, p.store.cursor), r)
                     <==> !Misses(p.history, e.junk, r)
    {
      MissesIff(p.history, e.junk, r);
    }
  }
}
