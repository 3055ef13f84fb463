/**
 * The orders table as a state machine: rows are only ever inserted, and every UPDATE is
 * guarded by status = 0 and selects on columns that no statement changes.
 */
module OrderBook {
  import opened Common
  import opened Codec

  /** The guarded UPDATE statements of OrderRepo. */
  datatype Update =
    | SetStatus(hash: Bytes, to: Status)
    | CancelSalt(maker: Bytes, salt: int)
    | CancelCounter(maker: Bytes, below: int)
    | CancelCollection(collection: Bytes)
    | Expire(now: Instant)

  /** The WHERE clause without its status guard. */
  predicate Targets(u: Update, r: Row) {
    match u
    case SetStatus(hash, _) => r.hash == hash
    case CancelSalt(maker, salt) => r.maker == maker && r.salt == salt
    case CancelCounter(maker, below) => r.maker == maker && r.counter < below
    case CancelCollection(collection) => r.collection == collection
    case Expire(now) => r.expiredAt.Some? && r.expiredAt.value * SECOND <= now
  }

  function NewStatus(u: Update): Status {
    match u
    case SetStatus(_, to) => to
    case Expire(_) => Expired
    case _ => Cancelled
  }

  function Touch(u: Update, r: Row): Row {
    if r.status == Active && Targets(u, r) then r.(status := NewStatus(u)) else r
  }

  function ApplyUpdate(u: Update, rows: seq<Row>): (after: seq<Row>)
    ensures |after| == |rows|
    ensures forall i :: 0 <= i < |rows| ==> after[i] == Touch(u, rows[i])
  {
    seq(|rows|, i requires 0 <= i < |rows| => Touch(u, rows[i]))
  }

  function RunUpdates(us: seq<Update>, rows: seq<Row>): (after: seq<Row>)
    ensures |after| == |rows|
  {
    if us == [] then rows else RunUpdates(us[1..], ApplyUpdate(us[0], rows))
  }

  // ----- what a list of updates does to one row -----

  /** The update takes an Active row out of the Active state. */
  predicate Hits(u: Update, r: Row) {
    Targets(u, r) && NewStatus(u) != Active
  }

  /** The position of the first update that hits r, or |us| if none does. */
  function FirstHit(us: seq<Update>, r: Row): (k: nat)
    ensures k <= |us|
    ensures k < |us| ==> Hits(us[k], r)
    ensures forall j :: 0 <= j < k ==> !Hits(us[j], r)
  {
    if us == [] || Hits(us[0], r) then 0 else 1 + FirstHit(us[1..], r)
  }

  /** First wins: an Active row takes the status of the first update that hits it, and keeps it. */
  function Decided(us: seq<Update>, r: Row): Row {
    var k := FirstHit(us, r);
    if r.status == Active && k < |us| then r.(status := NewStatus(us[k])) else r
  }

  lemma DecidedStep(u: Update, us: seq<Update>, r: Row)
    ensures Decided([u] + us, r) == Decided(us, Touch(u, r))
  {
    assert ([u] + us)[1..] == us;
    if r.status == Active && !Hits(u, r) {
      assert Touch(u, r) == r;
    }
  }

  lemma {:induction false} RunDecides(us: seq<Update>, rows: seq<Row>)
    ensures forall i :: 0 <= i < |rows| ==> RunUpdates(us, rows)[i] == Decided(us, rows[i])
  {
    if us == [] {
    } else {
      var next := ApplyUpdate(us[0], rows);
      RunDecides(us[1..], next);
      forall i | 0 <= i < |rows| ensures RunUpdates(us, rows)[i] == Decided(us, rows[i]) {
        DecidedStep(us[0], us[1..], rows[i]);
        assert us == [us[0]] + us[1..];
      }
    }
  }

  lemma RunsAgree(us: seq<Update>, vs: seq<Update>, rows: seq<Row>)
    requires forall i :: 0 <= i < |rows| ==> Decided(us, rows[i]) == Decided(vs, rows[i])
    ensures RunUpdates(us, rows) == RunUpdates(vs, rows)
  {
    RunDecides(us, rows);
    RunDecides(vs, rows);
  }

  lemma {:induction false} RunConcat(us: seq<Update>, vs: seq<Update>, rows: seq<Row>)
    ensures RunUpdates(us + vs, rows) == RunUpdates(vs, RunUpdates(us, rows))
  {
    if us == [] {
      assert us + vs == vs;
    } else {
      RunConcat(us[1..], vs, ApplyUpdate(us[0], rows));
      assert (us + vs)[1..] == us[1..] + vs;
    }
  }

  // ----- the updates of a list -----

  /** What each element contributes, in order. */
  function Gather<T>(xs: seq<T>, f: T -> seq<Update>): seq<Update> {
    if xs == [] then [] else Gather(xs[..|xs| - 1], f) + f(xs[|xs| - 1])
  }

  lemma GatherAppend<T>(xs: seq<T>, x: T, f: T -> seq<Update>)
    ensures Gather(xs + [x], f) == Gather(xs, f) + f(x)
  {
    assert (xs + [x])[..|xs|] == xs;
  }

  /** Running the updates of a longer list is running those of its last element at the end. */
  lemma GatherRuns<T>(xs: seq<T>, x: T, f: T -> seq<Update>, rows: seq<Row>)
    ensures RunUpdates(Gather(xs + [x], f), rows) == RunUpdates(f(x), RunUpdates(Gather(xs, f), rows))
  {
    GatherAppend(xs, x, f);
    RunConcat(Gather(xs, f), f(x), rows);
  }

  lemma {:induction false} GatherConcat<T>(a: seq<T>, b: seq<T>, f: T -> seq<Update>)
    ensures Gather(a + b, f) == Gather(a, f) + Gather(b, f)
  {
    if b == [] {
      assert a + b == a && Gather(b, f) == [];
    } else {
      var init, last := b[..|b| - 1], b[|b| - 1];
      hide Gather;
      GatherConcat(a, init, f);
      assert b == init + [last];
      Regroup(a, init, [last]);
      GatherAppend(a + init, last, f);
      GatherAppend(init, last, f);
      Regroup(Gather(a, f), Gather(init, f), f(last));
    }
  }

  lemma {:induction false} GatherHas<T>(xs: seq<T>, x: T, f: T -> seq<Update>)
    requires x in xs
    ensures forall u <- f(x) :: u in Gather(xs, f)
  {
    var init, last := xs[..|xs| - 1], xs[|xs| - 1];
    assert xs == init + [last];
    if x == last {
    } else {
      GatherHas(init, x, f);
    }
  }

  lemma {:induction false} GatherFrom<T>(xs: seq<T>, u: Update, f: T -> seq<Update>) returns (x: T)
    requires u in Gather(xs, f)
    ensures x in xs && u in f(x)
  {
    var init, last := xs[..|xs| - 1], xs[|xs| - 1];
    if u in f(last) {
      x := last;
    } else {
      x := GatherFrom(init, u, f);
    }
  }

  // ----- when two lists of updates leave the same book -----

  /** The status a list of updates gives an Active row, if any of them hits it. */
  function Verdict(us: seq<Update>, r: Row): Option<Status> {
    if FirstHit(us, r) < |us| then Some(NewStatus(us[FirstHit(us, r)])) else None
  }

  lemma {:induction false} VerdictConcat(us: seq<Update>, vs: seq<Update>, r: Row)
    ensures Verdict(us + vs, r) == if Verdict(us, r).Some? then Verdict(us, r) else Verdict(vs, r)
  {
    hide Hits;
    if us == [] {
      assert us + vs == vs;
    } else {
      assert (us + vs)[1..] == us[1..] + vs && (us + vs)[0] == us[0];
      VerdictConcat(us[1..], vs, r);
    }
  }

  /** Two lists of updates agree on a row: both leave it alone, or their first hits lead to one status. */
  predicate Alike(us: seq<Update>, vs: seq<Update>, r: Row) {
    r.status == Active ==> Verdict(us, r) == Verdict(vs, r)
  }

  /** Two lists of updates leave the same book exactly when they agree on every row. */
  lemma SameBookIff(us: seq<Update>, vs: seq<Update>, rows: seq<Row>)
    ensures RunUpdates(us, rows) == RunUpdates(vs, rows) <==> forall r <- rows :: Alike(us, vs, r)
  {
    RunDecides(us, rows);
    RunDecides(vs, rows);
    hide RunUpdates;
    if RunUpdates(us, rows) == RunUpdates(vs, rows) {
      forall r <- rows ensures Alike(us, vs, r) {
        var i :| 0 <= i < |rows| && rows[i] == r;
        assert Decided(us, r) == RunUpdates(us, rows)[i] == Decided(vs, r);
      }
    }
    if forall r <- rows :: Alike(us, vs, r) {
      forall i | 0 <= i < |rows| ensures RunUpdates(us, rows)[i] == RunUpdates(vs, rows)[i] {
        assert Alike(us, vs, rows[i]);
      }
    }
  }

  // ----- replay and order -----

  /** Re-applying updates that were all applied before, in any order and number, changes nothing. */
  lemma ReplayAbsorbed(us: seq<Update>, vs: seq<Update>, rows: seq<Row>)
    requires forall v <- vs :: v in us
    ensures RunUpdates(vs, RunUpdates(us, rows)) == RunUpdates(us, rows)
  {
    var after := RunUpdates(us, rows);
    RunDecides(us, rows);
    forall i | 0 <= i < |rows| ensures Decided(vs, after[i]) == after[i] {
      if after[i].status == Active {
        assert FirstHit(us, rows[i]) == |us| && after[i] == rows[i];
        forall v <- vs ensures !Hits(v, after[i]) {
          var j :| 0 <= j < |us| && us[j] == v;
        }
      }
    }
    RunDecides(vs, after);
  }

  /** Which rows are left Active depends only on which updates ran: not on order or repetition. */
  lemma SameUpdatesSameActive(us: seq<Update>, vs: seq<Update>, rows: seq<Row>)
    requires forall u :: u in us <==> u in vs
    ensures forall i :: 0 <= i < |rows| ==>
              (RunUpdates(us, rows)[i].status == Active <==> RunUpdates(vs, rows)[i].status == Active)
  {
    RunDecides(us, rows);
    RunDecides(vs, rows);
    forall i | 0 <= i < |rows|
      ensures Decided(us, rows[i]).status == Active <==> Decided(vs, rows[i]).status == Active
    {
      SameHitters(us, vs, rows[i]);
    }
  }

  lemma SameHitters(us: seq<Update>, vs: seq<Update>, r: Row)
    requires forall u :: u in us <==> u in vs
    ensures FirstHit(us, r) < |us| <==> FirstHit(vs, r) < |vs|
  {
    var j, k := FirstHit(us, r), FirstHit(vs, r);
    if j < |us| {
      assert us[j] in vs;
    }
    if k < |vs| {
      assert vs[k] in us;
    }
  }

  /** Two of the updates want some Active row in different final states. */
  ghost predicate Contested(us: seq<Update>, rows: seq<Row>) {
    exists i, a, b :: 0 <= i < |rows| && 0 <= a < |us| && 0 <= b < |us| && Conflict(us[a], us[b], rows[i])
  }

  ghost predicate Conflict(u: Update, v: Update, r: Row) {
    r.status == Active && Hits(u, r) && Hits(v, r) && NewStatus(u) != NewStatus(v)
  }

  /** A batch may be applied in any order exactly when no Active row is contested. */
  lemma OrderIndependentIff(us: seq<Update>, rows: seq<Row>)
    ensures (forall vs :: multiset(vs) == multiset(us) ==> RunUpdates(vs, rows) == RunUpdates(us, rows))
       <==> !Contested(us, rows)
  {
    if Contested(us, rows) {
      var i, a, b :| 0 <= i < |rows| && 0 <= a < |us| && 0 <= b < |us| && Conflict(us[a], us[b], rows[i]);
      var va := ToFront(us, a);
      var vb := ToFront(us, b);
      FrontDecides(va, rows, i);
      FrontDecides(vb, rows, i);
    } else {
      forall vs | multiset(vs) == multiset(us) ensures RunUpdates(vs, rows) == RunUpdates(us, rows) {
        UncontestedAgree(us, vs, rows);
      }
    }
  }

  lemma ToFront(us: seq<Update>, a: nat) returns (vs: seq<Update>)
    requires a < |us|
    ensures multiset(vs) == multiset(us) && vs != [] && vs[0] == us[a]
  {
    vs := [us[a]] + (us[..a] + us[a + 1..]);
    assert us == us[..a] + ([us[a]] + us[a + 1..]);
  }

  lemma FrontDecides(us: seq<Update>, rows: seq<Row>, i: nat)
    requires us != [] && i < |rows| && rows[i].status == Active && Hits(us[0], rows[i])
    ensures RunUpdates(us, rows)[i].status == NewStatus(us[0])
  {
    RunDecides(us, rows);
    assert FirstHit(us, rows[i]) == 0;
  }

  lemma UncontestedAgree(us: seq<Update>, vs: seq<Update>, rows: seq<Row>)
    requires multiset(vs) == multiset(us) && !Contested(us, rows)
    ensures RunUpdates(vs, rows) == RunUpdates(us, rows)
  {
    forall u ensures u in us <==> u in vs {
      assert u in us <==> u in multiset(us);
      assert u in vs <==> u in multiset(vs);
    }
    forall i | 0 <= i < |rows| ensures Decided(us, rows[i]) == Decided(vs, rows[i]) {
      SameHitters(us, vs, rows[i]);
      var j, k := FirstHit(us, rows[i]), FirstHit(vs, rows[i]);
      if rows[i].status == Active && j < |us| {
        assert vs[k] in multiset(us);
        var a :| 0 <= a < |us| && us[a] == vs[k];
        assert !Conflict(us[j], us[a], rows[i]);
      }
    }
    RunsAgree(us, vs, rows);
  }

  /** Updates that all lead to one status may be reordered and repeated at will. */
  lemma OneStatusAnyOrder(us: seq<Update>, vs: seq<Update>, st: Status, rows: seq<Row>)
    requires (forall u :: u in us <==> u in vs) && forall u <- us :: NewStatus(u) == st
    ensures RunUpdates(us, rows) == RunUpdates(vs, rows)
  {
    forall i | 0 <= i < |rows| ensures Decided(us, rows[i]) == Decided(vs, rows[i]) {
      SameHitters(us, vs, rows[i]);
    }
    RunsAgree(us, vs, rows);
  }

  /** Several counter increments of one maker amount to the one with the largest counter. */
  lemma CountersCollapse(maker: Bytes, counters: seq<int>, top: int, rows: seq<Row>)
    requires top in counters && forall c <- counters :: c <= top
    ensures RunUpdates(seq(|counters|, i requires 0 <= i < |counters| => CancelCounter(maker, counters[i])), rows)
         == ApplyUpdate(CancelCounter(maker, top), rows)
  {
    var us := seq(|counters|, i requires 0 <= i < |counters| => CancelCounter(maker, counters[i]));
    var one := CancelCounter(maker, top);
    RunDecides(us, rows);
    var m :| 0 <= m < |counters| && counters[m] == top;
    forall i | 0 <= i < |rows| ensures Decided(us, rows[i]) == Touch(one, rows[i]) {
      if Targets(one, rows[i]) {
        assert Hits(us[m], rows[i]);
      } else {
        forall k | 0 <= k < |us| ensures !Hits(us[k], rows[i]) {
          assert counters[k] in counters;
        }
      }
    }
  }

  // ----- runs with insertions -----

  datatype Step = Insert(row: Row) | Write(u: Update)

  /** The two unique indexes: order_hash, and (maker, salt) among Active rows. */
  predicate Clash(q: Row, r: Row) {
    || q.hash == r.hash
    || (q.status == Active && r.status == Active && q.maker == r.maker && q.salt == r.salt)
  }

  predicate Admissible(rows: seq<Row>, r: Row) {
    forall q <- rows :: !Clash(q, r)
  }

  function Apply(s: Step, rows: seq<Row>): seq<Row> {
    match s
    case Insert(r) => if Admissible(rows, r) then rows + [r] else rows
    case Write(u) => ApplyUpdate(u, rows)
  }

  function Run(steps: seq<Step>, rows: seq<Row>): seq<Row> {
    if steps == [] then rows else Run(steps[1..], Apply(steps[0], rows))
  }

  function Updates(steps: seq<Step>): seq<Update> {
    if steps == [] then []
    else (if steps[0].Write? then [steps[0].u] else []) + Updates(steps[1..])
  }

  predicate Valid(rows: seq<Row>) {
    forall i, j :: 0 <= i < j < |rows| ==> !Clash(rows[i], rows[j])
  }

  /** At most one row differs. */
  ghost predicate OneChange(before: seq<Row>, after: seq<Row>) {
    |before| == |after| &&
    forall i, j :: 0 <= i < j < |before| ==> before[i] == after[i] || before[j] == after[j]
  }

  /** No update breaks an index; one that names a hash, or a maker and salt, changes at most one row. */
  lemma UpdateKeepsValid(u: Update, rows: seq<Row>)
    ensures Valid(rows) ==> Valid(ApplyUpdate(u, rows))
    ensures Valid(rows) && (u.SetStatus? || u.CancelSalt?) ==> OneChange(rows, ApplyUpdate(u, rows))
  {
    forall i, j | 0 <= i < j < |rows| && Valid(rows)
      ensures !Clash(Touch(u, rows[i]), Touch(u, rows[j]))
      ensures u.SetStatus? || u.CancelSalt? ==> Touch(u, rows[i]) == rows[i] || Touch(u, rows[j]) == rows[j]
    {
      assert !Clash(rows[i], rows[j]);
    }
  }

  /** Hashes stay unique, and (maker, salt) stays unique among Active rows, over every run. */
  lemma {:induction false} RunKeepsValid(steps: seq<Step>, rows: seq<Row>)
    requires Valid(rows)
    ensures Valid(Run(steps, rows))
  {
    if steps == [] {
    } else {
      RunKeepsValid(steps[1..], Apply(steps[0], rows));
    }
  }

  /** Rows already present: nothing but the status moves, and only as the first hit decides. */
  lemma {:induction false} RunDecidesPresent(steps: seq<Step>, rows: seq<Row>)
    ensures |rows| <= |Run(steps, rows)|
    ensures forall i :: 0 <= i < |rows| ==> Run(steps, rows)[i] == Decided(Updates(steps), rows[i])
  {
    if steps == [] {
    } else {
      var next := Apply(steps[0], rows);
      RunDecidesPresent(steps[1..], next);
      forall i | 0 <= i < |rows| ensures Run(steps, rows)[i] == Decided(Updates(steps), rows[i]) {
        assert Run(steps, rows)[i] == Decided(Updates(steps[1..]), next[i]);
        if steps[0].Write? {
          DecidedStep(steps[0].u, Updates(steps[1..]), rows[i]);
          assert Updates(steps) == [steps[0].u] + Updates(steps[1..]);
        } else {
          assert Updates(steps) == Updates(steps[1..]);
        }
      }
    }
  }

  /** Row i of the final table was accepted from step m. */
  ghost predicate BornAt(steps: seq<Step>, m: nat, rows: seq<Row>, i: nat) {
    m < |steps| && steps[m].Insert? && |Run(steps[..m], rows)| == i && Admissible(Run(steps[..m], rows), steps[m].row)
  }

  lemma RunFirst(steps: seq<Step>, rows: seq<Row>)
    requires steps != []
    ensures Run(steps, rows) == Run(steps[1..], Apply(steps[0], rows))
  {
  }

  /** Born at step m of the rest is born at step m + 1. */
  lemma BornLater(steps: seq<Step>, m: nat, rows: seq<Row>, i: nat)
    requires steps != [] && BornAt(steps[1..], m, Apply(steps[0], rows), i)
    ensures BornAt(steps, m + 1, rows, i) && steps[m + 2..] == steps[1..][m + 1..]
  {
    hide Apply, Admissible;
    assert steps[..m + 1] == [steps[0]] + steps[1..][..m];
    RunFirst(steps[..m + 1], rows);
  }

  lemma BornFirst(steps: seq<Step>, rows: seq<Row>)
    requires steps != [] && |Apply(steps[0], rows)| > |rows|
    ensures BornAt(steps, 0, rows, |rows|) && Apply(steps[0], rows) == rows + [steps[0].row]
  {
    hide Admissible;
    assert steps[..0] == [];
  }

  /** The row that the first step inserts. */
  lemma FirstBorn(steps: seq<Step>, rows: seq<Row>, i: nat)
    requires steps != [] && |rows| <= i < |Apply(steps[0], rows)|
    ensures BornAt(steps, 0, rows, i) && i < |Run(steps, rows)|
    ensures Run(steps, rows)[i] == Decided(Updates(steps[1..]), steps[0].row)
  {
    var next := Apply(steps[0], rows);
    RunFirst(steps, rows);
    OneAtATime(steps[0], rows);
    BornFirst(steps, rows);
    hide Decided, Apply, Run, Updates, BornAt;
    RunDecidesPresent(steps[1..], next);
    assert next[i] == steps[0].row;
  }

  /** Every order's row is the inserted one with the status of the first later update that hits it. */
  lemma {:induction false} FirstWins(steps: seq<Step>, rows: seq<Row>, i: nat) returns (m: nat)
    requires |rows| <= i < |Run(steps, rows)|
    ensures BornAt(steps, m, rows, i)
    ensures Run(steps, rows)[i] == Decided(Updates(steps[m + 1..]), steps[m].row)
  {
    assert steps != [];
    var next := Apply(steps[0], rows);
    RunFirst(steps, rows);
    hide Decided, Apply, Run, Updates;
    if i < |next| {
      m := 0;
      FirstBorn(steps, rows, i);
    } else {
      var m' := FirstWins(steps[1..], next, i);
      m := m' + 1;
      BornLater(steps, m', rows, i);
    }
  }

  lemma OneAtATime(s: Step, rows: seq<Row>)
    ensures |rows| <= |Apply(s, rows)| <= |rows| + 1
  {
  }

  // ----- conservation -----

  function Count(rows: seq<Row>, st: Status): nat {
    if rows == [] then 0 else (if rows[0].status == st then 1 else 0) + Count(rows[1..], st)
  }

  /** The rows an UPDATE reports as affected. */
  function Affected(u: Update, rows: seq<Row>): nat {
    if rows == [] then 0
    else (if rows[0].status == Active && Targets(u, rows[0]) then 1 else 0) + Affected(u, rows[1..])
  }

  /** An update moves exactly its affected rows from Active to its own status. */
  lemma {:induction false} UpdateMoves(u: Update, rows: seq<Row>)
    requires NewStatus(u) != Active
    ensures Count(ApplyUpdate(u, rows), Active) == Count(rows, Active) - Affected(u, rows)
    ensures Count(ApplyUpdate(u, rows), NewStatus(u)) == Count(rows, NewStatus(u)) + Affected(u, rows)
    ensures forall st :: st != Active && st != NewStatus(u) ==> Count(ApplyUpdate(u, rows), st) == Count(rows, st)
  {
    hide Targets;
    if rows == [] {
    } else {
      UpdateMoves(u, rows[1..]);
      assert ApplyUpdate(u, rows)[1..] == ApplyUpdate(u, rows[1..]);
    }
  }

  function Accepted(steps: seq<Step>, rows: seq<Row>): nat {
    if steps == [] then 0
    else (if steps[0].Insert? && Admissible(rows, steps[0].row) then 1 else 0)
         + Accepted(steps[1..], Apply(steps[0], rows))
  }

  lemma {:induction false} CountsPartition(rows: seq<Row>)
    ensures Count(rows, Active) + Count(rows, Filled) + Count(rows, Cancelled) + Count(rows, Expired) == |rows|
  {
    if rows == [] {
    } else {
      CountsPartition(rows[1..]);
    }
  }

  /** Nothing is lost or duplicated: the four status counts add up to the accepted insertions. */
  lemma {:induction false} OrdersConserved(steps: seq<Step>, rows: seq<Row>)
    ensures var after := Run(steps, rows);
            Count(after, Active) + Count(after, Filled) + Count(after, Cancelled) + Count(after, Expired)
            == |rows| + Accepted(steps, rows)
  {
    if steps == [] {
      CountsPartition(rows);
    } else {
      OrdersConserved(steps[1..], Apply(steps[0], rows));
    }
  }
}
