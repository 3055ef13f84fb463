/**
 * The goroutines without a subscription are the recovery machine: every run of the concurrent
 * machine in which only the poller spawns handlers has a run of the recovery machine beside it.
 */
module PollOnly {
  import opened Common
  import opened Events
  import opened ChainSync
  import opened Chain
  import opened OrderBook
  import R = Recovery
  import H = Handlers

  function HandlersEnv(e: R.Env): H.Env {
    H.Env(e.confirmations, e.junk)
  }

  /** No delivery and no expiry; the node answers a poll in full, and a restart finds the saved cursor. */
  ghost predicate PollsOnly(e: R.Env, s: H.State, a: H.Action) {
    match a
    case NewHead(h) => h < TWO_64 - 1
    case Deliver(_) => false
    case PollStep(logs, ok) => ok && s.poller.Asking? && s.poller.from > 0 ==> logs == Fetch(e.chain, s.poller.from - 1, s.poller.to)
    case ExpireOrders(_) => false
    case Restart(savedOk, _) => savedOk
    case _ => true
  }

  ghost predicate AllPollsOnly(e: R.Env, s: H.State, actions: seq<H.Action>)
    decreases |actions|
  {
    actions == [] ||
    (PollsOnly(e, s, actions[0]) && AllPollsOnly(e, H.Do(HandlersEnv(e), s, actions[0]), actions[1..]))
  }

  function StoreOf(s: H.State): Store {
    Store(s.cursor, s.events, s.book)
  }

  /** What the handler under way has done to the store so far; the recovery machine does it all at once. */
  ghost predicate Partly(e: R.Env, s: Store, before: Store, t: H.Thread) {
    var l := t.log;
    match t.pc
    case Check => s == before
    case Wait => s == before && !R.Settled(before.events, l)
    case Record => s == before && !R.Settled(before.events, l)
    case Dispatch =>
      !R.Settled(before.events, l) && s == before.(events := before.events + [EventRow(l.key, l.event.value)])
    case Advance =>
      !R.Settled(before.events, l) && s.cursor == before.cursor && s.events == before.events + [EventRow(l.key, l.event.value)]
      && (s.book == before.book || s.book == HandleRows(l.event.value, e.junk, before.book))
    case _ => false
  }

  /** The handler the poller waits for, if it is still at work. */
  ghost predicate AtWork(s: H.State) {
    s.poller.Feeding? && s.poller.waiting.Some? && s.poller.waiting.value < |s.threads|
    && !s.threads[s.poller.waiting.value].pc.Done?
  }

  /** All handlers but that one are done. */
  ghost predicate OthersFinished(s: H.State) {
    forall i :: 0 <= i < |s.threads| && !(AtWork(s) && i == s.poller.waiting.value) ==> s.threads[i].pc.Done?
  }

  ghost predicate Related(e: R.Env, s: H.State, p: R.Proc) {
    && s.head == p.head < TWO_64 - 1 && s.saved == p.saved && s.saving == p.saving && OthersFinished(s)
    && (if AtWork(s) then
          var t := s.threads[s.poller.waiting.value];
          !t.log.removed && Partly(e, StoreOf(s), p.store, t) && p.poll == R.Polling(s.poller.to, [t.log] + s.poller.rest)
        else
          StoreOf(s) == p.store && PollerAs(e, s, p))
  }

  /** The poller between two handlers. */
  ghost predicate PollerAs(e: R.Env, s: H.State, p: R.Proc) {
    match s.poller
    case Resting => p.poll == R.Idle
    case HaveHead(latest) => p.poll == R.Idle && latest <= s.head
    case Asking(from, to) => p.poll == R.Idle && from == s.cursor + 1 && from <= to && to + e.confirmations <= s.head
    case Feeding(to, rest, _) => p.poll == R.Polling(to, rest)
  }

  lemma RunOne(e: R.Env, p: R.Proc, a: R.Action)
    ensures R.Run(e, p, [a]) == R.Do(e, p, a) && R.Run(e, p, []) == p
  {
    hide R.Do;
    assert [a][1..] == [];
  }

  // ----- steps of the poller -----

  lemma HeadTaken(e: R.Env, p0: R.Proc, s: H.State, p: R.Proc)
    requires R.Ordered(e, p0, p) && Related(e, s, p) && s.poller.HaveHead?
    ensures Related(e, H.DoPoll(HandlersEnv(e), s, [], true), p)
  {
    assert s.cursor + e.confirmations <= s.head;
    assert Add64(Add64(s.cursor, 1), e.confirmations) == s.cursor + 1 + e.confirmations;
    hide Add64, R.Ordered;
    var s' := H.DoPoll(HandlersEnv(e), s, [], true);
    assert !AtWork(s) && !AtWork(s');
  }

  lemma LogsFetched(e: R.Env, p0: R.Proc, s: H.State, p: R.Proc, logs: seq<ChainLog>)
    requires R.Ordered(e, p0, p) && Related(e, s, p) && s.poller.Asking?
    requires PollsOnly(e, s, H.PollStep(logs, true))
    ensures Related(e, H.DoPoll(HandlersEnv(e), s, logs, true), R.Do(e, p, R.Begin(s.poller.to + e.confirmations)))
  {
    hide R.Ordered, Fetch, Partly;
    var s' := H.DoPoll(HandlersEnv(e), s, logs, true);
    assert !AtWork(s) && !AtWork(s');
  }

  lemma PollEnds(e: R.Env, s: H.State, p: R.Proc)
    requires Related(e, s, p) && s.poller.Feeding? && s.poller.waiting.None? && s.poller.rest == []
    ensures Related(e, H.DoPoll(HandlersEnv(e), s, [], true), R.Do(e, p, R.Finish))
  {
    hide Partly;
    var s' := H.DoPoll(HandlersEnv(e), s, [], true);
    assert !AtWork(s) && !AtWork(s');
  }

  lemma HandlerSpawned(e: R.Env, p0: R.Proc, s: H.State, p: R.Proc)
    requires R.Started(e, p0) && R.Ordered(e, p0, p) && Related(e, s, p)
    requires s.poller.Feeding? && s.poller.waiting.None? && s.poller.rest != []
    ensures Related(e, H.DoPoll(HandlersEnv(e), s, [], true), p)
  {
    assert !AtWork(s);
    R.NextLog(e, p0, p);
    hide R.Ordered, R.Started;
    var s' := H.DoPoll(HandlersEnv(e), s, [], true);
    assert AtWork(s') && s'.threads[|s.threads|].log == s.poller.rest[0];
    assert [s.poller.rest[0]] + s.poller.rest[1..] == s.poller.rest;
  }

  lemma HandlerLeft(e: R.Env, s: H.State, p: R.Proc)
    requires Related(e, s, p) && !AtWork(s) && s.poller.Feeding? && s.poller.waiting.Some?
    ensures Related(e, H.DoPoll(HandlersEnv(e), s, [], true), p)
  {
    hide Partly;
    var s' := H.DoPoll(HandlersEnv(e), s, [], true);
    assert !AtWork(s');
  }

  /** The poller starts over, or takes a head. */
  lemma PollerRests(e: R.Env, s: H.State, p: R.Proc, poller: H.Poller)
    requires Related(e, s, p) && !AtWork(s) && p.poll == R.Idle
    requires poller == H.Resting || poller == H.HaveHead(s.head)
    ensures Related(e, s.(poller := poller), p)
  {
    hide Partly;
    assert !AtWork(s.(poller := poller));
  }

  lemma PollRefines(e: R.Env, p0: R.Proc, s: H.State, p: R.Proc, logs: seq<ChainLog>, ok: bool) returns (acts: seq<R.Action>)
    requires R.Started(e, p0) && R.Ordered(e, p0, p) && Related(e, s, p)
    requires PollsOnly(e, s, H.PollStep(logs, ok))
    ensures Related(e, H.DoPoll(HandlersEnv(e), s, logs, ok), R.Run(e, p, acts))
  {
    acts := [];
    hide R.Do, R.Run;
    if AtWork(s) {
      RunOne(e, p, R.Finish);
    } else if s.poller.Resting? {
      RunOne(e, p, R.Finish);
      PollerRests(e, s, p, if ok then H.HaveHead(s.head) else H.Resting);
    } else if s.poller.HaveHead? {
      RunOne(e, p, R.Finish);
      HeadTaken(e, p0, s, p);
    } else if s.poller.Asking? && ok {
      acts := [R.Begin(s.poller.to + e.confirmations)];
      RunOne(e, p, acts[0]);
      LogsFetched(e, p0, s, p, logs);
    } else if s.poller.Asking? {
      RunOne(e, p, R.Finish);
      PollerRests(e, s, p, H.Resting);
    } else if s.poller.waiting.Some? {
      RunOne(e, p, R.Finish);
      HandlerLeft(e, s, p);
    } else if s.poller.rest == [] {
      acts := [R.Finish];
      RunOne(e, p, R.Finish);
      PollEnds(e, s, p);
    } else {
      RunOne(e, p, R.Finish);
      HandlerSpawned(e, p0, s, p);
    }
  }

  // ----- steps of the handler at work -----

  /** The handler at work moves on, and the store is as far along as it says. */
  lemma StillAtWork(e: R.Env, s: H.State, p: R.Proc, s': H.State, pc: H.Pc)
    requires Related(e, s, p) && AtWork(s) && pc != H.Done
    requires var i := s.poller.waiting.value;
             && s' == s.(cursor := s'.cursor, events := s'.events, book := s'.book, history := s'.history,
                         threads := s.threads[i := s.threads[i].(pc := pc)])
             && Partly(e, StoreOf(s'), p.store, s.threads[i].(pc := pc))
    ensures Related(e, s', p)
  {
    hide Partly;
    assert AtWork(s');
  }

  /** The handler at work is done, and the recovery machine has caught up with it. */
  lemma NoLongerAtWork(e: R.Env, s: H.State, p: R.Proc, s': H.State, p': R.Proc)
    requires Related(e, s, p) && AtWork(s)
    requires var i := s.poller.waiting.value;
             s' == s.(cursor := s'.cursor, threads := s.threads[i := s.threads[i].(pc := H.Done)])
    requires p' == p.(store := StoreOf(s'), poll := R.Polling(s.poller.to, s.poller.rest), failed := p'.failed, history := p'.history)
    ensures Related(e, s', p')
  {
    hide Partly;
    assert !AtWork(s');
  }

  /** A handler that ends before it stores anything is one that fails, or has nothing to do. */
  lemma EndsEarly(e: R.Env, s: H.State, p: R.Proc)
    requires Related(e, s, p) && AtWork(s) && StoreOf(s) == p.store
    ensures var i := s.poller.waiting.value;
            Related(e, s.(threads := s.threads[i := s.threads[i].(pc := H.Done)]), R.Do(e, p, R.HandleNext(R.Failed)))
  {
    var i := s.poller.waiting.value;
    var s', p' := s.(threads := s.threads[i := s.threads[i].(pc := H.Done)]), R.Do(e, p, R.HandleNext(R.Failed));
    assert p.poll.rest[1..] == s.poller.rest;
    hide R.Settled, Partly;
    NoLongerAtWork(e, s, p, s', p');
  }

  /** The last step of a handler does at once what the recovery machine does in one. */
  lemma Advances(e: R.Env, s: H.State, p: R.Proc) returns (outcome: R.Outcome)
    requires Related(e, s, p) && AtWork(s) && s.threads[s.poller.waiting.value].pc == H.Advance
    ensures outcome != R.Failed
    ensures Related(e, H.DoTick(HandlersEnv(e), s, s.poller.waiting.value, true), R.Do(e, p, R.HandleNext(outcome)))
  {
    var i := s.poller.waiting.value;
    var l := s.threads[i].log;
    outcome := if s.book == HandleRows(l.event.value, e.junk, p.store.book) then R.Handled else R.Unapplied;
    var s', p' := H.DoTick(HandlersEnv(e), s, i, true), R.Do(e, p, R.HandleNext(outcome));
    assert p.poll.rest[1..] == s.poller.rest && p.poll.rest[0] == l;
    StoredAtOnce(e, p.store, l, outcome == R.Handled);
    hide HandleRows, R.HandleOne, R.Settled;
    assert p'.store == StoreOf(s');
    hide Partly;
    NoLongerAtWork(e, s, p, s', p');
  }

  lemma StoredAtOnce(e: R.Env, s: Store, l: ChainLog, applied: bool)
    requires !l.removed && !R.Settled(s.events, l)
    ensures R.HandleOne(e, s, l, applied) ==
            Store(Max(s.cursor, l.key.block), s.events + [EventRow(l.key, l.event.value)],
                  if applied then HandleRows(l.event.value, e.junk, s.book) else s.book)
  {
    hide HandleRows;
  }

  lemma TickRefines(e: R.Env, s: H.State, p: R.Proc, ok: bool) returns (acts: seq<R.Action>)
    requires Related(e, s, p) && AtWork(s)
    ensures Related(e, H.DoTick(HandlersEnv(e), s, s.poller.waiting.value, ok), R.Run(e, p, acts))
  {
    var i := s.poller.waiting.value;
    var t, s' := s.threads[i], H.DoTick(HandlersEnv(e), s, i, ok);
    acts := [];
    RunOne(e, p, R.HandleNext(R.Failed));
    hide R.Run, R.Do, HandleRows;
    if t.pc == H.Advance {
      var outcome := Advances(e, s, p);
      acts := [R.HandleNext(outcome)];
      RunOne(e, p, acts[0]);
    } else if s'.threads[i].pc == H.Done {
      acts := [R.HandleNext(R.Failed)];
      EndsEarly(e, s, p);
    } else if s' != s {
      StillAtWork(e, s, p, s', s'.threads[i].pc);
    }
  }

  // ----- restarts -----

  lemma RunTwo(e: R.Env, p: R.Proc, a: R.Action, b: R.Action)
    ensures R.Run(e, p, [a, b]) == R.Do(e, R.Do(e, p, a), b)
  {
    hide R.Do;
    assert [a, b][1..] == [b];
    RunOne(e, R.Do(e, p, a), b);
  }

  /** A restart forgets how far the poll was; what a handler had stored by then stays. */
  lemma RestartForgets(e: R.Env, p0: R.Proc, s: H.State, p: R.Proc, p1: R.Proc, headOk: bool)
    requires R.Started(e, p0) && R.Ordered(e, p0, p1) && Related(e, s, p)
    requires p1.head == p.head && p1.saved == p.saved && p1.store.events == s.events && p1.store.book == s.book
    ensures Related(e, H.Do(HandlersEnv(e), s, H.Restart(true, headOk)), R.Do(e, p1, R.Restart))
  {
    hide Partly;
    var s' := H.Do(HandlersEnv(e), s, H.Restart(true, headOk));
    assert !AtWork(s');
  }

  /** A stop in the middle of a handler is one that loses its update, or comes after all of it. */
  lemma StoppedAtWork(e: R.Env, s: H.State, p: R.Proc) returns (outcome: R.Outcome)
    requires Related(e, s, p) && AtWork(s) && StoreOf(s) != p.store
    ensures var p1 := R.Do(e, p, R.HandleNext(outcome));
            p1.head == p.head && p1.saved == p.saved && p1.store.events == s.events && p1.store.book == s.book
  {
    var t := s.threads[s.poller.waiting.value];
    outcome := if t.pc.Advance? && s.book == HandleRows(t.log.event.value, e.junk, p.store.book) then R.Handled else R.Unapplied;
    StoredAtOnce(e, p.store, t.log, outcome == R.Handled);
    hide HandleRows, R.HandleOne, R.Settled;
  }

  lemma RestartRefines(e: R.Env, p0: R.Proc, s: H.State, p: R.Proc, headOk: bool) returns (acts: seq<R.Action>)
    requires R.Started(e, p0) && R.Ordered(e, p0, p) && Related(e, s, p)
    ensures Related(e, H.Do(HandlersEnv(e), s, H.Restart(true, headOk)), R.Run(e, p, acts))
  {
    hide R.Do, R.Run, R.Ordered, R.Started;
    if AtWork(s) && StoreOf(s) != p.store {
      var outcome := StoppedAtWork(e, s, p);
      acts := [R.HandleNext(outcome), R.Restart];
      R.OrderedStep(e, p0, p, acts[0]);
      RunTwo(e, p, acts[0], acts[1]);
      RestartForgets(e, p0, s, p, R.Do(e, p, acts[0]), headOk);
    } else {
      acts := [R.Restart];
      RunOne(e, p, R.Restart);
      RestartForgets(e, p0, s, p, p, headOk);
    }
  }

  // ----- whole runs -----

  lemma NothingAtWork(e: R.Env, s: H.State, i: nat, ok: bool)
    requires OthersFinished(s) && i < |s.threads| && !(AtWork(s) && i == s.poller.waiting.value)
    ensures H.DoTick(HandlersEnv(e), s, i, ok) == s
  {
    assert s.threads[i].pc.Done?;
  }

  /** The saver and a growing head do not touch what the handler at work is at. */
  lemma SaverRefines(e: R.Env, s: H.State, p: R.Proc, a: H.Action) returns (act: R.Action)
    requires Related(e, s, p) && PollsOnly(e, s, a) && (a.NewHead? || a.ReadCursor? || a.WriteCursor?)
    ensures Related(e, H.Do(HandlersEnv(e), s, a), R.Do(e, p, act))
  {
    act := if a.NewHead? then R.NewHead(a.h) else if a.ReadCursor? then R.ReadCursor else R.WriteCursor(a.ok);
    var s' := H.Do(HandlersEnv(e), s, a);
    assert AtWork(s') == AtWork(s);
    hide R.Settled, HandleRows;
    assert s.cursor == p.store.cursor;
    hide Partly;
  }

  lemma StepRefines(e: R.Env, p0: R.Proc, s: H.State, p: R.Proc, a: H.Action) returns (acts: seq<R.Action>)
    requires R.Started(e, p0) && R.Ordered(e, p0, p) && Related(e, s, p) && PollsOnly(e, s, a)
    ensures Related(e, H.Do(HandlersEnv(e), s, a), R.Run(e, p, acts))
  {
    hide R.Do, R.Run, R.Ordered, R.Started, H.DoTick, H.DoPoll;
    acts := [];
    RunOne(e, p, R.Finish);
    match a
    case Tick(i, ok) =>
      if i < |s.threads| {
        if AtWork(s) && i == s.poller.waiting.value {
          acts := TickRefines(e, s, p, ok);
        } else {
          NothingAtWork(e, s, i, ok);
        }
      }
    case PollStep(logs, ok) => acts := PollRefines(e, p0, s, p, logs, ok);
    case Restart(_, headOk) => acts := RestartRefines(e, p0, s, p, headOk);
    case _ =>
      var act := SaverRefines(e, s, p, a);
      acts := [act];
      RunOne(e, p, act);
  }

  lemma {:induction false} RunAppend(e: R.Env, p: R.Proc, a: seq<R.Action>, b: seq<R.Action>)
    ensures R.Run(e, p, a + b) == R.Run(e, R.Run(e, p, a), b)
    decreases |a|
  {
    hide R.Do;
    if a == [] {
      assert a + b == b;
    } else {
      RunAppend(e, R.Do(e, p, a[0]), a[1..], b);
      assert (a + b)[1..] == a[1..] + b;
    }
  }

  lemma {:induction false} RunRefines(e: R.Env, p0: R.Proc, s: H.State, p: R.Proc, actions: seq<H.Action>) returns (acts: seq<R.Action>)
    requires R.Started(e, p0) && R.Ordered(e, p0, p) && R.Kept(e, p0, p) && Related(e, s, p) && AllPollsOnly(e, s, actions)
    ensures Related(e, H.Run(HandlersEnv(e), s, actions), R.Run(e, p, acts))
    decreases |actions|
  {
    hide Related, R.Ordered, R.Kept, R.Started, PollsOnly, H.Do, R.Do;
    if actions == [] {
      acts := [];
      RunOne(e, p, R.Finish);
    } else {
      var first := StepRefines(e, p0, s, p, actions[0]);
      R.RunKept(e, p0, p, first);
      var later := RunRefines(e, p0, H.Do(HandlersEnv(e), s, actions[0]), R.Run(e, p, first), actions[1..]);
      RunAppend(e, p, first, later);
      acts := first + later;
    }
  }

  /** The two machines start alike: nothing under way, one store, one head, one saved cursor. */
  ghost predicate StartAlike(s: H.State, p: R.Proc) {
    && s.threads == [] && s.poller == H.Resting && StoreOf(s) == p.store
    && s.head == p.head < TWO_64 - 1 && s.saved == p.saved && s.saving == p.saving
  }

  /**
   * Whatever the goroutines of a watcher without a subscription do, step by step, with failures,
   * saves and restarts at any point, the recovery machine does in some run. When the poller rests
   * after having caught up, the tables the goroutines leave are therefore complete exactly under
   * the conditions of RecoveryIff on that run.
   */
  lemma PollOnlyRecovers(e: R.Env, p0: R.Proc, s0: H.State, actions: seq<H.Action>) returns (acts: seq<R.Action>)
    requires R.Started(e, p0) && StartAlike(s0, p0) && AllPollsOnly(e, s0, actions)
    requires H.Run(HandlersEnv(e), s0, actions).poller == H.Resting
    ensures var (s, p) := (H.Run(HandlersEnv(e), s0, actions), R.Run(e, p0, acts));
            && StoreOf(s) == p.store && s.saved == p.saved && p.poll == R.Idle
            && (s.cursor == p.reached ==>
                  (R.SameContents(StoreOf(s), R.Expected(e, p0.store, s.cursor)) <==>
                   && R.RestartsGood(e, p0.store.cursor, p0, acts) && R.FailuresRepaired(p)
                   && forall r <- p0.store.book ::
                        Alike(Gather(p.history, R.AppliedUpdates(e.junk)), R.PassUpdates(e, p0.store, s.cursor), r)))
  {
    R.StartedKept(e, p0);
    assert !AtWork(s0);
    acts := RunRefines(e, p0, s0, p0, actions);
    var s, p := H.Run(HandlersEnv(e), s0, actions), R.Run(e, p0, acts);
    assert !AtWork(s);
    hide Partly, H.Run, R.Run, R.SameContents, R.Expected, R.RestartsGood, R.FailuresRepaired, Alike, Gather, R.PassUpdates;
    if s.cursor == p.reached {
      R.RecoveryIff(e, p0, acts);
    }
  }
}
