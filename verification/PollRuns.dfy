/**
 * Runs of the recovery machine: a whole poll is the poll of the code, saving between blocks loses
 * nothing, and two runs that do lose something.
 */
module PollRuns {
  import opened Common
  import opened Hex
  import opened Codec
  import opened Events
  import opened ChainSync
  import opened Chain
  import opened Recovery
  import OrderBook

  /** k steps of a run. */
  function Steps(e: Env, p: Proc, actions: seq<Action>, k: nat): Proc
    requires k <= |actions|
  {
    if k == 0 then p else Do(e, Steps(e, p, actions, k - 1), actions[k - 1])
  }

  /** A run follows a path of states each of which leads to the next. */
  lemma {:induction false} RunFollows(e: Env, path: seq<Proc>, actions: seq<Action>)
    requires |path| == |actions| + 1 && forall i :: 0 <= i < |actions| ==> Do(e, path[i], actions[i]) == path[i + 1]
    ensures Run(e, path[0], actions) == path[|actions|]
    decreases |actions|
  {
    hide Do;
    if actions == [] {
    } else {
      RunFollows(e, path[1..], actions[1..]);
    }
  }

  lemma FirstTwo(e: Env, p: Proc, actions: seq<Action>)
    requires |actions| >= 2
    ensures Run(e, p, actions) == Run(e, Do(e, Do(e, p, actions[0]), actions[1]), actions[2..])
  {
    hide Do;
    assert actions[1..][1..] == actions[2..];
  }

  lemma {:induction false} RunFrom(e: Env, p: Proc, actions: seq<Action>, k: nat)
    requires k <= |actions|
    ensures Run(e, p, actions) == Run(e, Steps(e, p, actions, k), actions[k..])
  {
    hide Do;
    if k == 0 {
    } else {
      RunFrom(e, p, actions, k - 1);
      assert actions[k - 1..][1..] == actions[k..];
    }
  }

  function AfterOutcome(e: Env, s: Store, l: ChainLog, outcome: Outcome): Store {
    if outcome == Failed then s else HandleOne(e, s, l, outcome == Handled)
  }

  /** What becomes of the logs of a poll, in order. */
  function HandleSome(e: Env, s: Store, logs: seq<ChainLog>, outcomes: seq<Outcome>): Store
    requires |outcomes| == |logs|
    decreases |logs|
  {
    if logs == [] then s
    else
      var n := |logs| - 1;
      AfterOutcome(e, HandleSome(e, s, logs[..n], outcomes[..n]), logs[n], outcomes[n])
  }

  /** The actions of one poll from a head that fetches logs with these outcomes. */
  function PollActions(latest: uint64, outcomes: seq<Outcome>): seq<Action> {
    [Begin(latest)] + seq(|outcomes|, i requires 0 <= i < |outcomes| => HandleNext(outcomes[i])) + [Finish]
  }

  /** What the answers of node and database make of a log. */
  function OutcomeOf(l: ChainLog, a: Answers, confirmations: uint64): Outcome {
    if !a.lookup || !Reached(a.heads, Add64(l.key.block, confirmations)) || !a.insert then Failed
    else if l.event.Some? && !Applied(l.event.value, a.db) then Unapplied
    else Handled
  }

  function Outcomes(logs: seq<ChainLog>, answers: seq<Answers>, confirmations: uint64): (outcomes: seq<Outcome>)
    requires |answers| == |logs|
    ensures |outcomes| == |logs|
  {
    seq(|logs|, i requires 0 <= i < |logs| => OutcomeOf(logs[i], answers[i], confirmations))
  }

  lemma OutcomeMeans(e: Env, s: Store, l: ChainLog, a: Answers)
    requires !l.removed
    ensures AfterLogWith(s, l, a, e.confirmations, e.junk) == AfterOutcome(e, s, l, OutcomeOf(l, a, e.confirmations))
  {
    hide HandleRows, Reached, Recorded, Applied;
  }

  lemma {:induction false} LogsAreHandled(e: Env, s: Store, logs: seq<ChainLog>, answers: seq<Answers>)
    requires |answers| == |logs| && forall l <- logs :: !l.removed
    ensures AfterLogs(s, logs, answers, e.confirmations, e.junk)
         == HandleSome(e, s, logs, Outcomes(logs, answers, e.confirmations))
    decreases |logs|
  {
    hide AfterLogWith, AfterOutcome, OutcomeOf;
    if logs == [] {
    } else {
      var n := |logs| - 1;
      LogsAreHandled(e, s, logs[..n], answers[..n]);
      assert Outcomes(logs, answers, e.confirmations)[..n] == Outcomes(logs[..n], answers[..n], e.confirmations);
      assert logs[n] in logs;
      OutcomeMeans(e, AfterLogs(s, logs[..n], answers[..n], e.confirmations, e.junk), logs[n], answers[n]);
    }
  }

  lemma NextStore(e: Env, p: Proc, outcome: Outcome)
    requires p.poll.Polling? && p.poll.rest != []
    ensures var p' := Do(e, p, HandleNext(outcome));
            p'.store == AfterOutcome(e, p.store, p.poll.rest[0], outcome)
            && p'.poll == Polling(p.poll.to, p.poll.rest[1..])
  {
    if Settled(p.store.events, p.poll.rest[0]) {
      SettledIsFree(e, p.store, p.poll.rest[0], outcome == Handled);
    }
    hide HandleOne, Settled;
  }

  lemma {:induction false} NextsHandle(e: Env, p: Proc, outcomes: seq<Outcome>, actions: seq<Action>, k: nat)
    requires p.poll.Polling? && k <= |p.poll.rest| == |outcomes| < |actions|
    requires forall i :: 0 <= i < |outcomes| ==> actions[i] == HandleNext(outcomes[i])
    ensures Steps(e, p, actions, k).store == HandleSome(e, p.store, p.poll.rest[..k], outcomes[..k])
    ensures Steps(e, p, actions, k).poll == Polling(p.poll.to, p.poll.rest[k..])
  {
    hide Do, AfterOutcome;
    if k == 0 {
    } else {
      NextsHandle(e, p, outcomes, actions, k - 1);
      NextStore(e, Steps(e, p, actions, k - 1), outcomes[k - 1]);
      assert p.poll.rest[..k][..k - 1] == p.poll.rest[..k - 1] && outcomes[..k][..k - 1] == outcomes[..k - 1];
      assert p.poll.rest[k - 1..][1..] == p.poll.rest[k..];
    }
  }

  /**
   * Begin, one HandleNext for each fetched log, Finish: together they do what the watcher's Poll
   * does, whatever fails while its logs are handled.
   */
  lemma PollIsRun(e: Env, p: Proc, answers: seq<Answers>)
    requires ValidChain(e.chain) && p.poll.Idle?
    requires p.store.cursor + 1 + e.confirmations <= p.head
    requires |answers| == |Fetch(e.chain, p.store.cursor, p.head - e.confirmations)|
    ensures var logs := Fetch(e.chain, p.store.cursor, p.head - e.confirmations);
            Run(e, p, PollActions(p.head, Outcomes(logs, answers, e.confirmations))).store ==
            AfterPoll(p.store, p.head, logs, answers, e.confirmations, e.junk)
  {
    var to := p.head - e.confirmations;
    var logs := Fetch(e.chain, p.store.cursor, to);
    FetchWithin(e.chain, p.store.cursor, to);
    hide Fetch, ValidChain, Run, PollActions, HandleSome, AfterLogs, AfterPoll;
    LogsAreHandled(e, p.store, logs, answers);
    WholePoll(e, p, logs, Outcomes(logs, answers, e.confirmations));
    PollWithoutWrap(e, p.store, p.head, logs, answers);
  }

  lemma PollWithoutWrap(e: Env, s: Store, head: uint64, logs: seq<ChainLog>, answers: seq<Answers>)
    requires s.cursor + 1 + e.confirmations <= head && |answers| == |logs|
    ensures var after := AfterLogs(s, logs, answers, e.confirmations, e.junk);
            AfterPoll(s, head, logs, answers, e.confirmations, e.junk)
            == after.(cursor := Max(after.cursor, head - e.confirmations))
  {
    hide AfterLogs;
  }

  lemma WholePoll(e: Env, p: Proc, logs: seq<ChainLog>, outcomes: seq<Outcome>)
    requires p.poll.Idle? && p.store.cursor + 1 + e.confirmations <= p.head && |outcomes| == |logs|
    requires logs == Fetch(e.chain, p.store.cursor, p.head - e.confirmations)
    ensures var s := HandleSome(e, p.store, logs, outcomes);
            Run(e, p, PollActions(p.head, outcomes)).store == s.(cursor := Max(s.cursor, p.head - e.confirmations))
  {
    hide Fetch, HandleSome;
    var n := |logs|;
    var p1 := Do(e, p, Begin(p.head));
    var tail := seq(n, i requires 0 <= i < n => HandleNext(outcomes[i])) + [Finish];
    assert PollActions(p.head, outcomes)[1..] == tail;
    NextsHandle(e, p1, outcomes, tail, n);
    RunFrom(e, p1, tail, n);
    assert tail[n..] == [Finish] && logs[..n] == logs && outcomes[..n] == outcomes;
    var p2 := Steps(e, p1, tail, n);
    assert Run(e, p2, [Finish]) == Do(e, p2, Finish);
  }

  // ----- when restarts are good -----

  /** The cursor is not inside a block: the next pending log, if any, lies above it. */
  predicate AtBoundary(p: Proc) {
    p.poll.Polling? && p.poll.rest != [] ==> p.poll.rest[0].key.block > p.store.cursor
  }

  /** Every read of the cursor that is going to be saved happens between blocks. */
  ghost predicate SavesAtBoundaries(e: Env, p: Proc, actions: seq<Action>)
    decreases |actions|
  {
    actions == [] ||
    ((actions[0].ReadCursor? ==> AtBoundary(p)) && SavesAtBoundaries(e, Do(e, p, actions[0]), actions[1..]))
  }

  lemma BoundarySettled(e: Env, p0: Proc, p: Proc)
    requires Started(e, p0) && Ordered(e, p0, p) && Tracks(e, p0, p) && p.failed == {} && AtBoundary(p)
    ensures SettledUpto(e, p0.store.cursor, p, p.store.cursor)
  {
    var from, c := p0.store.cursor, p.store.cursor;
    BoundaryBelow(e, p0, p);
    FetchIsSlice(e.chain, from, c);
    hide Upto, Fetch, Ordered, Settled, Position;
    forall k | Upto(e.chain, from) <= k < Upto(e.chain, c) ensures Settled(p.store.events, e.chain[k]) {
      assert Accounted(e, p, k);
    }
    SliceSettled(p.store.events, e.chain, Upto(e.chain, from), Upto(e.chain, c));
  }

  lemma SliceSettled(events: seq<EventRow>, chain: seq<ChainLog>, a: nat, b: nat)
    requires a <= b <= |chain| && forall k :: a <= k < b ==> Settled(events, chain[k])
    ensures forall l <- chain[a..b] :: Settled(events, l)
  {
  }

  lemma BoundaryBelow(e: Env, p0: Proc, p: Proc)
    requires Started(e, p0) && Ordered(e, p0, p) && AtBoundary(p)
    ensures Upto(e.chain, p.store.cursor) <= Position(e, p)
  {
    if p.poll.Polling? {
      UptoMonotone(e.chain, p.store.cursor, p.poll.to);
      UptoSplits(e.chain, p.store.cursor);
      if p.poll.rest != [] {
        NextLog(e, p0, p);
      }
    }
  }

  lemma SettledStays(e: Env, from: uint64, p: Proc, c: uint64, act: Action)
    requires ValidChain(e.chain) && SettledUpto(e, from, p, c)
    requires p.poll.Polling? ==> forall x <- p.poll.rest :: !x.removed
    ensures SettledUpto(e, from, Do(e, p, act), c)
  {
    if act.HandleNext? && p.poll.Polling? && p.poll.rest != [] {
      assert p.poll.rest[0] in p.poll.rest;
      HandleGrows(e, p.store, p.poll.rest[0], act.outcome == Handled);
    }
  }

  /** A caller who saves only between blocks never restarts badly, so it never loses a log. */
  lemma {:induction false} BoundarySavesSuffice(e: Env, p0: Proc, p: Proc, actions: seq<Action>)
    requires Started(e, p0) && Ordered(e, p0, p) && Tracks(e, p0, p) && SavesAtBoundaries(e, p, actions)
    requires AllApplied(p) && forall a <- actions :: a.HandleNext? ==> a.outcome == Handled
    requires SavesSettled(e, p0.store.cursor, p)
    ensures RestartsGood(e, p0.store.cursor, p, actions) && AllApplied(Run(e, p, actions))
    decreases |actions|
  {
    if actions == [] {
    } else {
      var act, p' := actions[0], Do(e, p, actions[0]);
      OrderedStep(e, p0, p, act);
      SavesStaySettled(e, p0, p, act);
      TracksStep(e, p0, p, act);
      StaysApplied(e, p, act);
      hide SavesSettled, Tracks, Ordered, Started, AtBoundary, AllApplied, Do;
      BoundarySavesSuffice(e, p0, p', actions[1..]);
    }
  }

  /** No handling has failed, in whole or in part. */
  ghost predicate AllApplied(p: Proc) {
    p.failed == {} && forall x <- p.history :: x.applied
  }

  lemma StaysApplied(e: Env, p: Proc, act: Action)
    requires AllApplied(p) && (act.HandleNext? ==> act.outcome == Handled)
    ensures AllApplied(Do(e, p, act))
  {
    hide HandleOne, Settled, Fetch;
  }

  /** Nothing at or below the saved cursor, or the one about to be saved, is unhandled. */
  ghost predicate SavesSettled(e: Env, from: uint64, p: Proc) {
    SettledUpto(e, from, p, p.saved) && (p.saving.Some? ==> SettledUpto(e, from, p, p.saving.value))
  }

  lemma SavesStaySettled(e: Env, p0: Proc, p: Proc, act: Action)
    requires Started(e, p0) && Ordered(e, p0, p) && Tracks(e, p0, p) && p.failed == {}
    requires SavesSettled(e, p0.store.cursor, p) && (act.ReadCursor? ==> AtBoundary(p))
    ensures SavesSettled(e, p0.store.cursor, Do(e, p, act))
  {
    var from := p0.store.cursor;
    PendingOnChain(e, p0, p);
    if act.ReadCursor? {
      BoundarySettled(e, p0, p);
    }
    SettledStays(e, from, p, p.saved, act);
    SettledStays(e, from, p, if p.saving.Some? then p.saving.value else p.saved, act);
    hide SettledUpto, Tracks, Ordered, Started, AtBoundary, HandleOne, Fetch, Settled;
  }

  lemma PendingOnChain(e: Env, p0: Proc, p: Proc)
    requires Started(e, p0) && Ordered(e, p0, p)
    ensures p.poll.Polling? ==> forall x <- p.poll.rest :: !x.removed
  {
  }

  /**
   * Recovery without loss, as a rule for the saver alone, while no handling fails in whole or in
   * part: the two tables are those of an uninterrupted pass, row for row.
   */
  lemma SafeSaving(e: Env, p0: Proc, actions: seq<Action>)
    requires Started(e, p0) && CaughtUp(Run(e, p0, actions)) && SavesAtBoundaries(e, p0, actions)
    requires forall a <- actions :: a.HandleNext? ==> a.outcome == Handled
    ensures var p := Run(e, p0, actions);
            p.store.events == Expected(e, p0.store, p.store.cursor).events
            && p.store.book == Expected(e, p0.store, p.store.cursor).book
  {
    var p := Run(e, p0, actions);
    StartedKept(e, p0);
    FetchIsSlice(e.chain, p0.store.cursor, p0.saved);
    BoundarySavesSuffice(e, p0, p0, actions);
    RunKept(e, p0, p0, actions);
    HistoryInOrder(e, p0, actions);
    ExpectedEvents(e, p0.store, p.store.cursor);
    AppliedIsDue(p.history, e.junk);
    DueIsLogs(p.history, e.junk);
    hide Run, OrderBook.RunUpdates, OrderBook.Gather, Expected, New, Stored, Logs, Fetch, Ordered, RestartsGood, SavesAtBoundaries;
  }

  /** Two logs in one block. */
  function TwoLogs(event: EventData, junk: string -> int): Env {
    Env([ChainLog(Key(5, 0, 0), "0x0a", false, Some(event)), ChainLog(Key(5, 0, 1), "0x0a", false, Some(event))], 0, junk)
  }

  lemma TwoLogsFetched(event: EventData, junk: string -> int)
    ensures var chain := TwoLogs(event, junk).chain;
            ValidChain(chain) && Fetch(chain, 1, 9) == chain && Fetch(chain, 5, 9) == []
  {
    var chain := TwoLogs(event, junk).chain;
    FetchAll(chain, 1, 9);
    FetchNone(chain, 5, 9);
  }

  lemma FirstOfTwo(e: Env, s: Store, event: EventData)
    requires e == TwoLogs(event, e.junk) && s == Store(1, [], [])
    ensures var after := HandleOne(e, s, e.chain[0], true);
            after.cursor == 5 && !Recorded(after.events, e.chain[1].key) && !Settled(s.events, e.chain[0])
  {
    hide HandleRows;
    RecordedAppend([], EventRow(e.chain[0].key, event));
  }

  /** The rest of such a run: a poll from block 5 finds nothing, however the cursor got there. */
  lemma NothingLeft(e: Env, s: Store, rest: seq<ChainLog>, history: seq<Entry>)
    requires e.confirmations == 0 && s.cursor == 5 && Fetch(e.chain, 5, 9) == []
    ensures Run(e, Proc(9, s, 1, None, Polling(9, rest), 9, {}, history),
                [ReadCursor, WriteCursor(true), Restart, Begin(9), Finish])
         == Proc(9, s.(cursor := 9), 5, None, Idle, 9, {}, history)
  {
    hide HandleOne, Fetch, Run, Settled;
    var p2 := Proc(9, s, 1, None, Polling(9, rest), 9, {}, history);
    var p3 := p2.(saving := Some(5));
    var p4 := p2.(saved := 5);
    var p5 := p4.(poll := Idle);
    var p6 := p4.(poll := Polling(9, []));
    var p7 := p5.(store := s.(cursor := 9));
    RunFollows(e, [p2, p3, p4, p5, p6, p7], [ReadCursor, WriteCursor(true), Restart, Begin(9), Finish]);
  }

  /** A save between two logs of one block: the restarted process catches up without the second. */
  lemma MidBlockSaveLoses(event: EventData, junk: string -> int)
    ensures var e := TwoLogs(event, junk);
            var p0 := Proc(9, Store(1, [], []), 1, None, Idle, 1, {}, []);
            var p := Run(e, p0, [Begin(9), HandleNext(Handled), ReadCursor, WriteCursor(true), Restart, Begin(9), Finish]);
            Started(e, p0) && CaughtUp(p) && p.store.cursor == 9 && !Recorded(p.store.events, e.chain[1].key)
  {
    var e := TwoLogs(event, junk);
    var p0 := Proc(9, Store(1, [], []), 1, None, Idle, 1, {}, []);
    var acts := [Begin(9), HandleNext(Handled), ReadCursor, WriteCursor(true), Restart, Begin(9), Finish];
    var s := HandleOne(e, p0.store, e.chain[0], true);
    TwoLogsFetched(event, junk);
    FirstOfTwo(e, p0.store, event);
    var tail, h := e.chain[1..], [Entry(e.chain[0], true)];
    hide HandleOne, Fetch, ValidChain, Run, Settled, Recorded;
    var p1 := Proc(9, p0.store, 1, None, Polling(9, e.chain), 9, {}, []);
    var p2 := Proc(9, s, 1, None, Polling(9, tail), 9, {}, h);
    assert Do(e, p0, Begin(9)) == p1;
    assert Do(e, p1, HandleNext(Handled)) == p2;
    hide Do, TwoLogs;
    FirstTwo(e, p0, acts);
    assert acts[2..] == [ReadCursor, WriteCursor(true), Restart, Begin(9), Finish];
    NothingLeft(e, s, tail, h);
  }

  /** One fill in block 5. */
  function OneFill(hash: string, junk: string -> int): Env {
    Env([ChainLog(Key(5, 0, 0), "0x0a", false, Some(Fulfilled(hash, "1")))], 0, junk)
  }

  lemma OneFillFetched(hash: string, junk: string -> int)
    ensures var chain := OneFill(hash, junk).chain;
            ValidChain(chain) && Fetch(chain, 1, 9) == chain
  {
    FetchAll(OneFill(hash, junk).chain, 1, 9);
  }

  /** A stop between the insertion of a fill and its update: the restarted process leaves the order Active. */
  lemma CrashLosesFill(r: Row, hash: string, junk: string -> int)
    requires r.status == Active && HexDecode(hash) == Value(r.hash)
    ensures var e := OneFill(hash, junk);
            var p0 := Proc(9, Store(1, [], [r]), 1, None, Idle, 1, {}, []);
            var p := Run(e, p0, [Begin(9), HandleNext(Unapplied), Restart, Begin(9), HandleNext(Handled), Finish]);
            && Started(e, p0) && CaughtUp(p) && Recorded(p.store.events, e.chain[0].key)
            && p.store.book == [r] && Expected(e, p0.store, p.store.cursor).book == [r.(status := Filled)]
  {
    var e := OneFill(hash, junk);
    var l, h := e.chain[0], [Entry(e.chain[0], false)];
    var s0 := Store(1, [], [r]);
    var s := HandleOne(e, s0, l, false);
    var p0 := Proc(9, s0, 1, None, Idle, 1, {}, []);
    var acts := [Begin(9), HandleNext(Unapplied), Restart, Begin(9), HandleNext(Handled), Finish];
    OneFillFetched(hash, junk);
    FillApplies(e, s0, r, hash);
    assert s == Store(5, [EventRow(l.key, l.event.value)], [r]);
    assert Settled(s.events, l) by { assert s.events[0] in s.events; }
    SettledIsFree(e, s.(cursor := 1), l, true);
    hide HandleOne, Fetch, ValidChain, Run, HexDecode;
    assert e.chain[1..] == [] && !Settled(s0.events, l);
    var p1 := Proc(9, s0, 1, None, Polling(9, e.chain), 9, {}, []);
    var p2 := Proc(9, s, 1, None, Polling(9, []), 9, {}, h);
    var p3 := Proc(9, s.(cursor := 1), 1, None, Idle, 9, {}, h);
    var p4 := Proc(9, s.(cursor := 1), 1, None, Polling(9, e.chain), 9, {}, h);
    var p5 := Proc(9, s.(cursor := 1), 1, None, Polling(9, []), 9, {}, h);
    var p6 := Proc(9, s.(cursor := 9), 1, None, Idle, 9, {}, h);
    assert Do(e, p0, Begin(9)) == p1;
    assert Do(e, p1, HandleNext(Unapplied)) == p2;
    assert Do(e, p2, Restart) == p3;
    assert Do(e, p3, Begin(9)) == p4;
    assert Do(e, p4, HandleNext(Handled)) == p5;
    assert Do(e, p5, Finish) == p6;
    hide Do;
    RunFollows(e, [p0, p1, p2, p3, p4, p5, p6], acts);
  }

  lemma FillApplies(e: Env, s: Store, r: Row, hash: string)
    requires e == OneFill(hash, e.junk) && s == Store(1, [], [r])
    requires r.status == Active && HexDecode(hash) == Value(r.hash)
    ensures HandleAll(e, s, e.chain).book == [r.(status := Filled)]
  {
    hide HexDecode;
    assert e.chain[..0] == [];
    assert HandleAll(e, s, []) == s;
    assert HandleOne(e, s, e.chain[0], true).book == [r.(status := Filled)];
  }
}
