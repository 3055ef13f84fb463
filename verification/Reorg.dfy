/** What a rollback forgets, and what re-polling after it does to the book. */
module Reorg {
  import opened Common
  import opened Codec
  import opened OrderBook
  import opened Events
  import opened ChainSync
  import opened Chain
  import opened Recovery

  /** The log at the end of a list nobody has recorded. */
  lemma FreshIsHandled(e: Env, s: Store, l: ChainLog)
    requires !l.removed && !Recorded(s.events, l.key)
    ensures AfterLog(s, l, true, e.junk).book == RunUpdates(UpdatesOfLog(l, e.junk), s.book)
    ensures forall key :: Recorded(AfterLog(s, l, true, e.junk).events, key) <==>
                          Recorded(s.events, key) || (l.event.Some? && l.key == key)
  {
    hide HandleRows, RunUpdates, UpdateList;
    if l.event.Some? {
      HandleRowsRuns(l.event.value, e.junk, s.book);
      RecordedAppend(s.events, EventRow(l.key, l.event.value));
    } else {
      NoUpdates(s.book);
    }
  }

  /** Logs nobody has recorded are all handled, in order. */
  lemma {:induction false} FreshAreHandled(e: Env, s: Store, logs: seq<ChainLog>)
    requires DistinctLogs(logs) && forall l <- logs :: !l.removed && !Recorded(s.events, l.key)
    ensures HandleAll(e, s, logs).book == RunUpdates(Gather(logs, LogUpdates(e.junk)), s.book)
    ensures forall key :: Recorded(HandleAll(e, s, logs).events, key) <==>
                          Recorded(s.events, key) || exists l <- logs :: l.event.Some? && l.key == key
    decreases |logs|
  {
    hide Recorded, AfterLog, UpdatesOfLog, RunUpdates;
    if logs == [] {
      NoUpdates(s.book);
    } else {
      var n := |logs| - 1;
      var init, l := logs[..n], logs[n];
      FreshAreHandled(e, s, init);
      assert logs == init + [l];
      FreshIsHandled(e, HandleAll(e, s, init), l);
      GatherRuns(init, l, LogUpdates(e.junk), s.book);
    }
  }

  lemma {:induction false} RowsBelowKeys(events: seq<EventRow>, block: uint64)
    ensures forall key :: Recorded(RowsBelow(events, block), key) <==> Recorded(events, key) && key.block < block
  {
    if events == [] {
    } else {
      RowsBelowKeys(events[1..], block);
      var rest := RowsBelow(events[1..], block);
      forall key ensures Recorded(RowsBelow(events, block), key) <==> Recorded(events, key) && key.block < block {
        RecordedCons(events[0], events[1..], key);
        RecordedCons(events[0], rest, key);
        assert [events[0]] + events[1..] == events;
      }
    }
  }

  lemma RecordedCons(row: EventRow, events: seq<EventRow>, key: Key)
    ensures Recorded([row] + events, key) <==> row.key == key || Recorded(events, key)
  {
    if row.key == key {
      assert row in [row] + events;
    }
    if Recorded(events, key) {
      var r :| r in events && r.key == key;
      assert r in [row] + events;
    }
  }

  /** The updates that are not in the history. */
  function NotIn(us: seq<Update>, history: seq<Update>): seq<Update>
    decreases |us|
  {
    if us == [] then []
    else NotIn(us[..|us| - 1], history) + if us[|us| - 1] in history then [] else [us[|us| - 1]]
  }

  /** On a book that has seen `history`, updates from that history may be dropped anywhere. */
  lemma {:induction false} HistoryIsFree(us: seq<Update>, history: seq<Update>, rows: seq<Row>)
    ensures RunUpdates(us, RunUpdates(history, rows)) == RunUpdates(NotIn(us, history), RunUpdates(history, rows))
    decreases |us|
  {
    if us == [] {
    } else {
      var init, u := us[..|us| - 1], us[|us| - 1];
      var book := RunUpdates(history, rows);
      HistoryIsFree(init, history, rows);
      assert us == init + [u];
      RunConcat(init, [u], book);
      if u in history {
        RunConcat(history, NotIn(init, history), rows);
        ReplayAbsorbed(history + NotIn(init, history), [u], rows);
        assert NotIn(us, history) == NotIn(init, history);
      } else {
        RunConcat(NotIn(init, history), [u], book);
      }
    }
  }

  /**
   * A removed log, confirmed as any other, and then a poll up to `to`, on a book that has seen
   * `history`. If the log's own event is recorded, nothing is rolled back at all. Otherwise the
   * cursor goes back, every log the poll fetches is handled again, and those whose update the
   * book has already seen change nothing. The events table ends up with the surviving rows and
   * the fetched logs: whatever was recorded for the block rolled back to is gone, because the
   * rollback deletes that block and the poll resumes above it.
   */
  lemma ReorgResync(e: Env, s: Store, history: seq<Update>, start: seq<Row>, l: ChainLog, to: uint64)
    requires ValidChain(e.chain) && s.book == RunUpdates(history, start)
    requires l.removed && l.event.Some? && RewindTo(l.key.block) <= to
    ensures Recorded(s.events, l.key) ==> AfterLog(s, l, true, e.junk) == s
    ensures !Recorded(s.events, l.key) ==>
              var back := RewindTo(l.key.block);
              var fetched := Fetch(e.chain, back, to);
              var rolled := AfterLog(s, l, true, e.junk);
              var after := HandleAll(e, rolled, fetched);
              && rolled.cursor == back
              && after.book == RunUpdates(NotIn(Gather(fetched, LogUpdates(e.junk)), history), s.book)
              && (forall key :: Recorded(after.events, key) <==>
                    (Recorded(s.events, key) && key.block < back) || (exists x <- fetched :: x.event.Some? && x.key == key))
              && (forall key: Key :: key.block == back ==> !Recorded(after.events, key))
  {
    if !Recorded(s.events, l.key) {
      Resynced(e, s, history, start, l.key.block, to);
    }
  }

  lemma Resynced(e: Env, s: Store, history: seq<Update>, start: seq<Row>, b: uint64, to: uint64)
    requires ValidChain(e.chain) && s.book == RunUpdates(history, start) && RewindTo(b) <= to
    ensures var fetched := Fetch(e.chain, RewindTo(b), to);
            var after := HandleAll(e, AfterReorg(s, b), fetched);
            && after.book == RunUpdates(NotIn(Gather(fetched, LogUpdates(e.junk)), history), s.book)
            && (forall key :: Recorded(after.events, key) <==>
                  (Recorded(s.events, key) && key.block < RewindTo(b)) || (exists x <- fetched :: x.event.Some? && x.key == key))
            && (forall key: Key :: key.block == RewindTo(b) ==> !Recorded(after.events, key))
  {
    var fetched := Fetch(e.chain, RewindTo(b), to);
    FetchWithin(e.chain, RewindTo(b), to);
    FetchedDistinct(e.chain, RewindTo(b), to);
    RowsBelowKeys(s.events, RewindTo(b));
    hide HandleAll, RunUpdates, Gather, NotIn, RowsBelow, Recorded, Fetch, LogUpdates;
    FreshAreHandled(e, AfterReorg(s, b), fetched);
    HistoryIsFree(Gather(fetched, LogUpdates(e.junk)), history, start);
  }
}
