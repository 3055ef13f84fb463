/**
 * The chain watcher, one step at a time: a handled log, a poll, a rollback (internal/watcher/watcher.go
 * and the event table and cursor of internal/repository/event.go).
 */
module ChainSync {
  import opened Common
  import opened Codec
  import opened OrderBook
  import opened Events

  /** The unique key of the events table. */
  datatype Key = Key(block: uint64, txIndex: nat, logIndex: nat)

  /** A delivered log after parseEvent; event is None for a log that is not one of ours. */
  datatype ChainLog = ChainLog(key: Key, txHash: string, removed: bool, event: Option<EventData>)

  datatype EventRow = EventRow(key: Key, event: EventData)

  /** The live cursor, the events table and the orders table. */
  datatype Store = Store(cursor: uint64, events: seq<EventRow>, book: seq<Row>)

  const REORG_DEPTH: uint64 := 12
  const FIRST_SYNC_DEPTH: uint64 := 100

  predicate Recorded(events: seq<EventRow>, key: Key) {
    exists r <- events :: r.key == key
  }

  /** The UPDATE of a log as a list of none or one. */
  function UpdatesOfLog(l: ChainLog, junk: string -> int): seq<Update> {
    if l.event.None? then [] else UpdateList(l.event.value, junk)
  }

  function LogUpdates(junk: string -> int): ChainLog -> seq<Update> {
    l => UpdatesOfLog(l, junk)
  }

  lemma RecordedAppend(events: seq<EventRow>, row: EventRow)
    ensures forall key :: Recorded(events + [row], key) <==> Recorded(events, key) || key == row.key
  {
    forall key ensures Recorded(events + [row], key) <==> Recorded(events, key) || key == row.key {
      if Recorded(events, key) {
        var r :| r in events && r.key == key;
        assert r in events + [row];
      }
      assert row in events + [row];
    }
  }

  function Max(a: uint64, b: uint64): uint64 {
    if a > b then a else b
  }

  function Add64(a: uint64, b: uint64): uint64 {
    (a + b) % TWO_64
  }

  function Sub64(a: uint64, b: uint64): uint64 {
    (a - b) % TWO_64
  }

  /** DeleteEventsAboveBlock: despite its name it removes the block itself too. */
  function RowsBelow(events: seq<EventRow>, block: uint64): seq<EventRow> {
    if events == [] then []
    else (if events[0].key.block < block then [events[0]] else []) + RowsBelow(events[1..], block)
  }

  function RewindTo(block: uint64): uint64 {
    if block > REORG_DEPTH then block - REORG_DEPTH else 0
  }

  /**
   * What node and database answer while one log is handled: whether the lookup, the insertion
   * and the deletion succeed, the heads reported while the log waits, and the event service's share.
   */
  datatype Answers = Answers(lookup: bool, heads: seq<Option<uint64>>, insert: bool, delete: bool, db: Db)

  /** The answers of repeated BlockNumber calls reach the wanted height before one fails. */
  predicate Reached(heads: seq<Option<uint64>>, wanted: uint64) {
    heads != [] && heads[0].Some? && (heads[0].value >= wanted || Reached(heads[1..], wanted))
  }

  /** handleLog of a log whose confirmations arrived (or not), when nothing fails and no other handler runs. */
  function AfterLog(s: Store, l: ChainLog, confirmed: bool, junk: string -> int): Store {
    if l.event.None? || Recorded(s.events, l.key) || !confirmed then s
    else if l.removed then AfterReorg(s, l.key.block)
    else Store(Max(s.cursor, l.key.block), s.events + [EventRow(l.key, l.event.value)],
               HandleRows(l.event.value, junk, s.book))
  }

  function AfterReorg(s: Store, block: uint64): Store {
    Store(RewindTo(block), RowsBelow(s.events, RewindTo(block)), s.book)
  }

  /**
   * handleLog under any failure. A failed lookup or insertion leaves everything as it was; a
   * failed deletion still rewinds the cursor; and a failed UPDATE leaves the event recorded and
   * the cursor moved, but the book unchanged.
   */
  function AfterLogWith(s: Store, l: ChainLog, a: Answers, confirmations: uint64, junk: string -> int): Store {
    var after := AfterLog(s, l, a.lookup && Reached(a.heads, Add64(l.key.block, confirmations)), junk);
    if after == s then s
    else if l.removed then if a.delete then after else s.(cursor := after.cursor)
    else if !a.insert then s
    else if Applied(l.event.value, a.db) then after
    else after.(book := s.book)
  }

  /** The logs of a poll, handled in order; answers[i] is what happens around log i. */
  function AfterLogs(s: Store, logs: seq<ChainLog>, answers: seq<Answers>, confirmations: uint64,
                     junk: string -> int): Store
    requires |answers| == |logs|
    decreases |logs|
  {
    if logs == [] then s
    else
      var last := |logs| - 1;
      var before := AfterLogs(s, logs[..last], answers[..last], confirmations, junk);
      AfterLogWith(before, logs[last], answers[last], confirmations, junk)
  }

  /** A poll whose node reports `latest` and returns `logs` for the range it is asked for. */
  function AfterPoll(s: Store, latest: uint64, logs: seq<ChainLog>, answers: seq<Answers>, confirmations: uint64,
                     junk: string -> int): Store
    requires |answers| == |logs|
  {
    if Add64(Add64(s.cursor, 1), confirmations) > latest then s
    else
      var s' := AfterLogs(s, logs, answers, confirmations, junk);
      s'.(cursor := Max(s'.cursor, Sub64(latest, confirmations)))
  }

  /** The cursor a start-up takes from the saved one and the head (0 when the node does not answer). */
  function InitialCursor(saved: uint64, latest: uint64): uint64 {
    if saved != 0 then saved else if latest > FIRST_SYNC_DEPTH then latest - FIRST_SYNC_DEPTH else 0
  }

  /** The cursor a restart resumes from. */
  function Resume(saved: Option<uint64>, latest: uint64): uint64 {
    InitialCursor(if saved.Some? then saved.value else 0, latest)
  }

  class Watcher {
    const service: EventService
    const confirmations: uint64
    var cursor: uint64
    var events: seq<EventRow>
    var saved: Option<uint64>

    constructor (service: EventService, confirmations: uint64)
      ensures this.service == service && this.confirmations == confirmations
      ensures cursor == 0 && events == [] && saved == None
    {
      this.service, this.confirmations := service, confirmations;
      cursor, events, saved := 0, [], None;
    }

    ghost function Snapshot(): Store
      reads this, service, service.repo
    {
      Store(cursor, events, service.repo.rows)
    }

    /** Run, up to the point where it starts its goroutines. Either read may fail. */
    method Start(savedOk: bool, latest: Option<uint64>)
      modifies this`cursor
      ensures cursor == Resume(if savedOk then saved else None, if latest.Some? then latest.value else 0)
    {
      var c: uint64 := if savedOk && saved.Some? then saved.value else 0;
      if c == 0 {
        var top: uint64 := if latest.Some? then latest.value else 0;
        if top > FIRST_SYNC_DEPTH {
          c := top - FIRST_SYNC_DEPTH;
        }
      }
      cursor := c;
    }

    /**
     * One tick of processLoop. A restart from here resumes where the watcher stands, unless it
     * stands at zero: a saved zero counts as nothing saved, and the head decides again.
     */
    method SaveCursor(ok: bool)
      modifies this`saved
      ensures ok ==> forall latest :: Resume(saved, latest) == if cursor != 0 then cursor else Resume(None, latest)
      ensures ok ==> saved.Some?
      ensures !ok ==> saved == old(saved)
    {
      if ok {
        saved := Some(cursor);
      }
    }

    method WaitConfirmations(block: uint64, heads: seq<Option<uint64>>) returns (ok: bool)
      ensures ok == Reached(heads, Add64(block, confirmations))
    {
      var i := 0;
      while i < |heads|
        invariant i <= |heads|
        invariant Reached(heads, Add64(block, confirmations)) == Reached(heads[i..], Add64(block, confirmations))
      {
        if heads[i].None? { return false; }
        if heads[i].value >= Add64(block, confirmations) { return true; }
        i := i + 1;
      }
      return false;
    }

    method HandleLog(l: ChainLog, a: Answers)
      modifies this`cursor, this`events, service, service.repo
      ensures Snapshot() == AfterLogWith(old(Snapshot()), l, a, confirmations, service.junk)
    {
      hide HandleRows;
      if l.event.None? || !a.lookup || Recorded(events, l.key) { return; }
      var ok := WaitConfirmations(l.key.block, a.heads);
      if !ok { return; }
      if l.removed {
        cursor := RewindTo(l.key.block);
        if a.delete {
          events := RowsBelow(events, cursor);
        }
        return;
      }
      if !a.insert { return; }
      events := events + [EventRow(l.key, l.event.value)];
      var handled := service.Handle(l.event.value, l.txHash, a.db);
      if l.key.block > cursor {
        cursor := l.key.block;
      }
    }

    /** poll. A failed call to the node is None: no head, or no answer to the log query. */
    method Poll(latest: Option<uint64>, logs: Option<seq<ChainLog>>, answers: seq<Answers>) returns (ok: bool)
      requires logs.Some? ==> |answers| == |logs.value|
      modifies this`cursor, this`events, service, service.repo
      ensures latest.Some? && logs.Some? ==>
                ok && Snapshot() == AfterPoll(old(Snapshot()), latest.value, logs.value, answers, confirmations, service.junk)
      ensures latest.None? || logs.None? ==> Snapshot() == old(Snapshot())
    {
      if latest.None? { return false; }
      var fromBlock := Add64(cursor, 1);
      if Add64(fromBlock, confirmations) > latest.value { return true; }
      var toBlock := Sub64(latest.value, confirmations);
      if logs.None? { return false; }
      for i := 0 to |logs.value|
        invariant Snapshot() == AfterLogs(old(Snapshot()), logs.value[..i], answers[..i], confirmations, service.junk)
      {
        HandleLog(logs.value[i], answers[i]);
        assert logs.value[..i + 1][..i] == logs.value[..i] && answers[..i + 1][..i] == answers[..i];
      }
      assert logs.value[..|logs.value|] == logs.value && answers[..|answers|] == answers;
      if toBlock > cursor {
        cursor := toBlock;
      }
      return true;
    }
  }
}
