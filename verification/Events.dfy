/** Contract logs, the event data parsed from them, and the event service that applies it to the book. */
module Events {
  import opened Common
  import opened Hex
  import opened Codec
  import opened OrderBook
  import Decimal
  import Paging
  import Repo = OrderRepo

  /** The event payloads; every field is the text that travels through JSON. */
  datatype EventData =
    | Fulfilled(orderHash: string, finalPrice: string)
    | SaltCancelled(maker: string, salt: string)
    | CounterRaised(maker: string, counter: string)
    | CollectionChanged(collection: string, blocked: bool)

  /** The hex text the handler decodes, if it decodes one at all. */
  function Subject(e: EventData): Option<string> {
    match e
    case Fulfilled(hash, _) => Some(hash)
    case SaltCancelled(maker, _) => Some(maker)
    case CounterRaised(maker, _) => Some(maker)
    case CollectionChanged(collection, blocked) => if blocked then Some(collection) else None
  }

  predicate Decodes(e: EventData) {
    Subject(e).Some? ==> !HexDecode(Subject(e).value).Malformed?
  }

  /** The UPDATE a handler issues, if its hex text denotes bytes. */
  function UpdateOf(e: EventData, junk: string -> int): Option<Update> {
    if Subject(e).None? || !HexDecode(Subject(e).value).Value? then None
    else
      var b := HexDecode(Subject(e).value).bytes;
      match e
      case Fulfilled(_, _) => Some(SetStatus(b, Filled))
      case SaltCancelled(_, salt) => Some(CancelSalt(b, Decimal.SetString(salt, junk)))
      case CounterRaised(_, counter) => Some(CancelCounter(b, Decimal.SetString(counter, junk)))
      case CollectionChanged(_, _) => Some(CancelCollection(b))
  }

  function HandleRows(e: EventData, junk: string -> int, rows: seq<Row>): (after: seq<Row>)
    ensures |after| == |rows|
  {
    match UpdateOf(e, junk) case None => rows case Some(u) => ApplyUpdate(u, rows)
  }

  /** The UPDATE of an event as a list of none or one. */
  function UpdateList(e: EventData, junk: string -> int): seq<Update> {
    match UpdateOf(e, junk) case None => [] case Some(u) => [u]
  }

  function EventUpdates(junk: string -> int): EventData -> seq<Update> {
    e => UpdateList(e, junk)
  }

  lemma HandleRowsRuns(e: EventData, junk: string -> int, rows: seq<Row>)
    ensures HandleRows(e, junk, rows) == RunUpdates(UpdateList(e, junk), rows)
  {
    var us := UpdateList(e, junk);
    if us != [] {
      assert us[1..] == [];
    }
  }

  // ----- batches -----

  function HandleBatch(es: seq<EventData>, junk: string -> int, rows: seq<Row>): seq<Row>
    decreases |es|
  {
    if es == [] then rows else HandleRows(es[|es| - 1], junk, HandleBatch(es[..|es| - 1], junk, rows))
  }

  lemma {:induction false} BatchRuns(es: seq<EventData>, junk: string -> int, rows: seq<Row>)
    ensures HandleBatch(es, junk, rows) == RunUpdates(Gather(es, EventUpdates(junk)), rows)
    decreases |es|
  {
    hide HandleRows, UpdateList;
    if es == [] {
    } else {
      var init, e := es[..|es| - 1], es[|es| - 1];
      BatchRuns(init, junk, rows);
      HandleRowsRuns(e, junk, HandleBatch(init, junk, rows));
      GatherRuns(init, e, EventUpdates(junk), rows);
      assert es == init + [e];
    }
  }

  /**
   * Batches of the same events, in any order and with any repetitions, leave the same orders
   * Active; without fills they leave the same book.
   */
  lemma BatchOrderIrrelevant(es: seq<EventData>, fs: seq<EventData>, junk: string -> int, rows: seq<Row>)
    requires forall e :: e in es <==> e in fs
    ensures forall i :: 0 <= i < |rows| ==>
              |HandleBatch(es, junk, rows)| == |HandleBatch(fs, junk, rows)| == |rows| &&
              (HandleBatch(es, junk, rows)[i].status == Active <==> HandleBatch(fs, junk, rows)[i].status == Active)
    ensures (forall e <- es :: !e.Fulfilled?) ==> HandleBatch(es, junk, rows) == HandleBatch(fs, junk, rows)
  {
    hide HandleBatch, RunUpdates, Gather;
    var us, vs := Gather(es, EventUpdates(junk)), Gather(fs, EventUpdates(junk));
    BatchRuns(es, junk, rows);
    BatchRuns(fs, junk, rows);
    forall u ensures u in us <==> u in vs {
      if u in us { GatheredToo(es, fs, u, junk); }
      if u in vs { GatheredToo(fs, es, u, junk); }
    }
    SameUpdatesSameActive(us, vs, rows);
    if forall e <- es :: !e.Fulfilled? {
      AllCancel(es, junk);
      OneStatusAnyOrder(us, vs, Cancelled, rows);
    }
  }

  lemma GatheredToo(es: seq<EventData>, fs: seq<EventData>, u: Update, junk: string -> int)
    requires (forall e <- es :: e in fs) && u in Gather(es, EventUpdates(junk))
    ensures u in Gather(fs, EventUpdates(junk))
  {
    var e := GatherFrom(es, u, EventUpdates(junk));
    GatherHas(fs, e, EventUpdates(junk));
  }

  lemma AllCancel(es: seq<EventData>, junk: string -> int)
    requires forall e <- es :: !e.Fulfilled?
    ensures forall u <- Gather(es, EventUpdates(junk)) :: NewStatus(u) == Cancelled
  {
    forall u <- Gather(es, EventUpdates(junk)) ensures NewStatus(u) == Cancelled {
      var e := GatherFrom(es, u, EventUpdates(junk));
    }
  }

  // ----- the service -----

  /** The JSON objects a push carries. */
  datatype Payload =
    | FillPayload(orderHash: string, txHash: string, finalPrice: string)
    | SaltPayload(maker: string, salt: string)
    | MakerPayload(maker: string)
    | CollectionPayload(collection: string, blocked: bool)

  /** A call of Hub.Broadcast. */
  datatype Push = Push(collection: string, kind: string, payload: Payload)

  /**
   * What the database does while an event is handled: whether the UPDATE runs, and after how
   * many rows the query for the push targets breaks off, if it does.
   */
  datatype Db = Db(updates: bool, breaksAt: Option<nat>)

  /** The handler's UPDATE went through; an event that needs none always does. */
  predicate Applied(e: EventData, db: Db) {
    Subject(e).Some? ==> db.updates
  }

  ghost predicate HashAt(hash: string, name: string, rows: seq<Row>) {
    exists r <- rows :: HexDecode(hash) == Value(r.hash) && name == HexEncode(r.collection)
  }

  /** The announcements due for an event when the book is `rows` before it. */
  ghost predicate Due(e: EventData, txHash: string, rows: seq<Row>, p: Push) {
    match e
    case Fulfilled(hash, price) =>
      p.kind == "order:filled" && p.payload == FillPayload(hash, txHash, price) && HashAt(hash, p.collection, rows)
    case SaltCancelled(maker, salt) =>
      p.kind == "order:cancelled" && p.payload == SaltPayload(maker, salt) && Repo.ListsIn(maker, p.collection, rows)
    case CounterRaised(maker, _) => p == Push("", "order:cancelled", MakerPayload(maker))
    case CollectionChanged(collection, blocked) =>
      p == Push(collection, "collection:updated", CollectionPayload(collection, blocked))
  }

  /**
   * The pushes an event sends: due ones, none twice, for a fill at most one; and all that are
   * due (for a fill one of them), unless the query for the targets breaks off.
   */
  ghost predicate Pushes(e: EventData, txHash: string, rows: seq<Row>, breaksAt: Option<nat>, ps: seq<Push>) {
    && Paging.Distinct(ps) && (forall p <- ps :: Due(e, txHash, rows, p))
    && (e.Fulfilled? ==> |ps| <= 1)
    && (breaksAt.None? || e.CounterRaised? || e.CollectionChanged? ==>
          forall p :: Due(e, txHash, rows, p) ==> if e.Fulfilled? then ps != [] else p in ps)
    && (breaksAt.Some? && e.Fulfilled? ==> ps == [])
    && (breaksAt.Some? && e.SaltCancelled? ==> |ps| <= breaksAt.value)
  }

  class EventService {
    const repo: Repo.OrderRepo
    const junk: string -> int
    var pushes: seq<Push>

    constructor (repo: Repo.OrderRepo, junk: string -> int)
      ensures this.repo == repo && this.junk == junk && pushes == []
    {
      this.repo, this.junk, pushes := repo, junk, [];
    }

    /**
     * Handle: one guarded UPDATE on the book, and the pushes of the event. An error, from the
     * text or from the database, leaves book and subscribers alone; a query that breaks off
     * costs only pushes.
     */
    method Handle(e: EventData, txHash: string, db: Db) returns (ok: bool)
      modifies repo, this
      ensures ok <==> Decodes(e) && Applied(e, db)
      ensures repo.rows == if Applied(e, db) then HandleRows(e, junk, old(repo.rows)) else old(repo.rows)
      ensures ok ==> exists ps :: pushes == old(pushes) + ps && Pushes(e, txHash, old(repo.rows), db.breaksAt, ps)
      ensures !ok ==> pushes == old(pushes)
    {
      match e
      case Fulfilled(_, _) => ok := HandleOrderFulfilled(e, txHash, db);
      case SaltCancelled(_, _) => ok := HandleOrderCancelled(e, txHash, db);
      case CounterRaised(_, _) => ok := HandleCounterIncremented(e, txHash, db);
      case CollectionChanged(_, _) => ok := HandleCollectionUpdated(e, txHash, db);
    }

    method HandleOrderFulfilled(e: EventData, txHash: string, db: Db) returns (ok: bool)
      requires e.Fulfilled?
      modifies repo, this
      ensures ok <==> Decodes(e) && Applied(e, db)
      ensures repo.rows == if Applied(e, db) then HandleRows(e, junk, old(repo.rows)) else old(repo.rows)
      ensures ok ==> exists ps :: pushes == old(pushes) + ps && Pushes(e, txHash, old(repo.rows), db.breaksAt, ps)
      ensures !ok ==> pushes == old(pushes)
    {
      hide DecodeHex, EncodeHex, HexDecode, HexEncode, Pushes, HandleRows, Valid;
      if !db.updates { return false; }
      ok := repo.UpdateStatus(e.orderHash, Filled);
      MovedIsHandled(e, junk, old(repo.rows), repo.rows);
      if !ok { return; }
      var found := repo.FindByHash(e.orderHash);
      var ps: seq<Push> := [];
      if db.breaksAt.None? && found.Ok? && found.value.Some? {
        ps := [Push(found.value.value.collection, "order:filled", FillPayload(e.orderHash, txHash, e.finalPrice))];
      }
      FilledPushes(e, txHash, junk, old(repo.rows), db.breaksAt, found.value, ps);
      pushes := pushes + ps;
    }

    method HandleOrderCancelled(e: EventData, txHash: string, db: Db) returns (ok: bool)
      requires e.SaltCancelled?
      modifies repo, this
      ensures ok <==> Decodes(e) && Applied(e, db)
      ensures repo.rows == if Applied(e, db) then HandleRows(e, junk, old(repo.rows)) else old(repo.rows)
      ensures ok ==> exists ps :: pushes == old(pushes) + ps && Pushes(e, txHash, old(repo.rows), db.breaksAt, ps)
      ensures !ok ==> pushes == old(pushes)
    {
      hide DecodeHex, EncodeHex, HexDecode, HexEncode, Decimal.SetString;
      hide Pushes, HandleRows, Valid, Repo.ListsIn;
      var collections := repo.GetMakerActiveCollections(e.maker);
      var salt := Decimal.SetString(e.salt, junk);
      if !db.updates { return false; }
      ok := repo.CancelByMakerSalt(e.maker, salt);
      MovedIsHandled(e, junk, old(repo.rows), repo.rows);
      if !ok { return; }
      var n := |collections.value|;
      if db.breaksAt.Some? && db.breaksAt.value < n { n := db.breaksAt.value; }
      ghost var ps := Announcements(e, collections.value[..n]);
      for i := 0 to n
        invariant repo.rows == HandleRows(e, junk, old(repo.rows))
        invariant pushes == old(pushes) + ps[..i]
      {
        pushes := pushes + [Push(collections.value[i], "order:cancelled", SaltPayload(e.maker, e.salt))];
      }
      assert ps[..|ps|] == ps;
      SaltPushes(e, txHash, old(repo.rows), db.breaksAt, collections.value, n);
    }

    method HandleCounterIncremented(e: EventData, txHash: string, db: Db) returns (ok: bool)
      requires e.CounterRaised?
      modifies repo, this
      ensures ok <==> Decodes(e) && Applied(e, db)
      ensures repo.rows == if Applied(e, db) then HandleRows(e, junk, old(repo.rows)) else old(repo.rows)
      ensures ok ==> exists ps :: pushes == old(pushes) + ps && Pushes(e, txHash, old(repo.rows), db.breaksAt, ps)
      ensures !ok ==> pushes == old(pushes)
    {
      hide HexDecode, HandleRows, Valid, Decimal.SetString;
      var minCounter := Decimal.SetString(e.counter, junk);
      if !db.updates { return false; }
      ok := repo.CancelByMakerCounter(e.maker, minCounter);
      MovedIsHandled(e, junk, old(repo.rows), repo.rows);
      if !ok { return; }
      var p := Push("", "order:cancelled", MakerPayload(e.maker));
      pushes := pushes + [p];
      assert Pushes(e, txHash, old(repo.rows), db.breaksAt, [p]);
    }

    method HandleCollectionUpdated(e: EventData, txHash: string, db: Db) returns (ok: bool)
      requires e.CollectionChanged?
      modifies repo, this
      ensures ok <==> Decodes(e) && Applied(e, db)
      ensures repo.rows == if Applied(e, db) then HandleRows(e, junk, old(repo.rows)) else old(repo.rows)
      ensures ok ==> exists ps :: pushes == old(pushes) + ps && Pushes(e, txHash, old(repo.rows), db.breaksAt, ps)
      ensures !ok ==> pushes == old(pushes)
    {
      hide HexDecode, HandleRows, Valid;
      ok := true;
      if e.blocked {
        if !db.updates { return false; }
        ok := repo.CancelByCollection(e.collection);
      }
      MovedIsHandled(e, junk, old(repo.rows), repo.rows);
      if !ok { return; }
      var p := Push(e.collection, "collection:updated", CollectionPayload(e.collection, e.blocked));
      pushes := pushes + [p];
      assert Pushes(e, txHash, old(repo.rows), db.breaksAt, [p]);
    }
  }

  /** The rows an event is about, said of its own text. */
  ghost predicate Meets(e: EventData, junk: string -> int, r: Row) {
    match e
    case Fulfilled(hash, _) => HexDecode(hash) == Value(r.hash)
    case SaltCancelled(maker, salt) => HexDecode(maker) == Value(r.maker) && r.salt == Decimal.SetString(salt, junk)
    case CounterRaised(maker, counter) => HexDecode(maker) == Value(r.maker) && r.counter < Decimal.SetString(counter, junk)
    case CollectionChanged(collection, blocked) => blocked && HexDecode(collection) == Value(r.collection)
  }

  lemma HandledRow(e: EventData, junk: string -> int, rows: seq<Row>, i: nat)
    requires i < |rows|
    ensures HandleRows(e, junk, rows)[i]
         == if rows[i].status == Active && Meets(e, junk, rows[i])
            then rows[i].(status := if e.Fulfilled? then Filled else Cancelled) else rows[i]
  {
    hide HexDecode, Decimal.SetString;
  }

  lemma MovedIsHandled(e: EventData, junk: string -> int, rows: seq<Row>, after: seq<Row>)
    requires |after| == |rows|
    requires forall i :: 0 <= i < |rows| ==>
               after[i] == if rows[i].status == Active && Meets(e, junk, rows[i])
                           then rows[i].(status := if e.Fulfilled? then Filled else Cancelled) else rows[i]
    ensures after == HandleRows(e, junk, rows)
  {
    hide HandleRows, Meets;
    forall i | 0 <= i < |rows| ensures after[i] == HandleRows(e, junk, rows)[i] {
      HandledRow(e, junk, rows, i);
    }
  }

  /** The update does not change which rows carry a hash, nor their collections. */
  lemma SameHashes(e: EventData, junk: string -> int, rows: seq<Row>, hash: string, name: string)
    ensures HashAt(hash, name, HandleRows(e, junk, rows)) <==> HashAt(hash, name, rows)
  {
    hide HexDecode, HexEncode;
    var after := HandleRows(e, junk, rows);
    assert forall i :: 0 <= i < |rows| ==> after[i].hash == rows[i].hash && after[i].collection == rows[i].collection;
    if HashAt(hash, name, after) {
      var i :| 0 <= i < |after| && HexDecode(hash) == Value(after[i].hash) && name == HexEncode(after[i].collection);
      assert rows[i] in rows;
    }
    if HashAt(hash, name, rows) {
      var i :| 0 <= i < |rows| && HexDecode(hash) == Value(rows[i].hash) && name == HexEncode(rows[i].collection);
      assert after[i] in after;
    }
  }

  lemma FilledPushes(e: EventData, txHash: string, junk: string -> int, rows: seq<Row>, breaksAt: Option<nat>,
                     found: Option<Order>, ps: seq<Push>)
    requires e.Fulfilled?
    requires found.Some? ==> HashAt(e.orderHash, found.value.collection, HandleRows(e, junk, rows))
    requires found.None? ==> forall name :: !HashAt(e.orderHash, name, HandleRows(e, junk, rows))
    requires ps == if breaksAt.None? && found.Some?
                   then [Push(found.value.collection, "order:filled", FillPayload(e.orderHash, txHash, e.finalPrice))] else []
    ensures Pushes(e, txHash, rows, breaksAt, ps)
  {
    forall name ensures HashAt(e.orderHash, name, HandleRows(e, junk, rows)) <==> HashAt(e.orderHash, name, rows) {
      SameHashes(e, junk, rows, e.orderHash, name);
    }
    hide HashAt, HandleRows;
  }

  function Announcements(e: EventData, names: seq<string>): (ps: seq<Push>)
    requires e.SaltCancelled?
    ensures |ps| == |names|
  {
    seq(|names|, i requires 0 <= i < |names| => Push(names[i], "order:cancelled", SaltPayload(e.maker, e.salt)))
  }

  lemma SaltPushes(e: EventData, txHash: string, rows: seq<Row>, breaksAt: Option<nat>, names: seq<string>, n: nat)
    requires e.SaltCancelled? && Paging.Distinct(names) && forall c :: c in names <==> Repo.ListsIn(e.maker, c, rows)
    requires n == if breaksAt.Some? && breaksAt.value < |names| then breaksAt.value else |names|
    ensures Pushes(e, txHash, rows, breaksAt, Announcements(e, names[..n]))
  {
    hide Repo.ListsIn;
    var ps := Announcements(e, names[..n]);
    forall p <- ps ensures Due(e, txHash, rows, p) {
      var j :| 0 <= j < |ps| && ps[j] == p;
      assert names[j] in names;
    }
    if breaksAt.None? {
      forall p | Due(e, txHash, rows, p) ensures p in ps {
        var j :| 0 <= j < |names| && names[j] == p.collection;
        assert ps[j] == p;
      }
    }
  }

  ghost predicate Announced(r: Row, ps: seq<Push>) {
    exists p <- ps :: p.collection == HexEncode(r.collection)
  }

  /** A row that an event changes is one it meets. */
  lemma ChangedIsMet(e: EventData, junk: string -> int, rows: seq<Row>, i: nat)
    requires i < |rows| && HandleRows(e, junk, rows)[i] != rows[i]
    ensures rows[i] in rows && rows[i].status == Active && Meets(e, junk, rows[i])
  {
    hide HandleRows, Meets;
    HandledRow(e, junk, rows, i);
  }

  /** Without a break every due push is sent (of a fill, one of them), and nothing else. */
  lemma SentIsDue(e: EventData, txHash: string, rows: seq<Row>, ps: seq<Push>, p: Push)
    requires Pushes(e, txHash, rows, None, ps)
    ensures Due(e, txHash, rows, p) && !e.Fulfilled? ==> p in ps
    ensures Due(e, txHash, rows, p) && e.Fulfilled? ==> ps != []
    ensures p in ps ==> Due(e, txHash, rows, p)
  {
    hide Due, Paging.Distinct;
  }

  lemma FillAnnounced(e: EventData, txHash: string, junk: string -> int, rows: seq<Row>, ps: seq<Push>, i: nat)
    requires e.Fulfilled? && Pushes(e, txHash, rows, None, ps) && Valid(rows) && i < |rows| && Meets(e, junk, rows[i])
    ensures Announced(rows[i], ps)
  {
    hide HexDecode, HexEncode, Pushes;
    var due := Push(HexEncode(rows[i].collection), "order:filled", FillPayload(e.orderHash, txHash, e.finalPrice));
    assert HashAt(e.orderHash, due.collection, rows);
    SentIsDue(e, txHash, rows, ps, due);
    var p := ps[0];
    SentIsDue(e, txHash, rows, ps, p);
    OneName(e.orderHash, rows, i, p.collection);
  }

  /** In a valid table only one row carries a hash. */
  lemma OneName(hash: string, rows: seq<Row>, i: nat, name: string)
    requires Valid(rows) && i < |rows| && HexDecode(hash) == Value(rows[i].hash) && HashAt(hash, name, rows)
    ensures name == HexEncode(rows[i].collection)
  {
    hide HexDecode, HexEncode;
    var j :| 0 <= j < |rows| && HexDecode(hash) == Value(rows[j].hash) && name == HexEncode(rows[j].collection);
    assert i == j;
  }

  lemma SaltAnnounced(e: EventData, txHash: string, junk: string -> int, rows: seq<Row>, ps: seq<Push>, i: nat)
    requires e.SaltCancelled? && Pushes(e, txHash, rows, None, ps)
    requires i < |rows| && rows[i].status == Active && Meets(e, junk, rows[i])
    ensures Announced(rows[i], ps)
  {
    hide HexDecode, HexEncode, Decimal.SetString, Pushes;
    var p := Push(HexEncode(rows[i].collection), "order:cancelled", SaltPayload(e.maker, e.salt));
    assert Repo.ListsIn(e.maker, p.collection, rows);
    SentIsDue(e, txHash, rows, ps, p);
  }

  /** A push of which there is just one is sent. */
  lemma OnlyOne(e: EventData, txHash: string, rows: seq<Row>, ps: seq<Push>, p: Push, r: Row)
    requires Pushes(e, txHash, rows, None, ps) && !e.Fulfilled?
    requires forall q :: Due(e, txHash, rows, q) <==> q == p
    ensures Announced(r, ps) <==> p.collection == HexEncode(r.collection)
  {
    SentIsDue(e, txHash, rows, ps, p);
    forall q <- ps ensures q == p {
      SentIsDue(e, txHash, rows, ps, q);
    }
    hide Pushes, Due, HexEncode;
  }

  lemma CounterAnnounced(e: EventData, txHash: string, rows: seq<Row>, ps: seq<Push>, r: Row)
    requires e.CounterRaised? && Pushes(e, txHash, rows, None, ps)
    ensures Announced(r, ps) <==> r.collection == []
  {
    hide Pushes;
    OnlyOne(e, txHash, rows, ps, Push("", "order:cancelled", MakerPayload(e.maker)), r);
    hide Announced;
  }

  /** A column that was read from a text comes back as its normal form. */
  lemma NameIsNormal(text: string, b: Bytes)
    requires HexDecode(text) == Value(b)
    ensures HexEncode(b) == NormalHex(text)
  {
    HexColumnRoundTrip(text);
    hide HexDecode, NormalHex, HexEncode;
  }

  lemma BlockAnnounced(e: EventData, txHash: string, junk: string -> int, rows: seq<Row>, ps: seq<Push>, r: Row)
    requires e.CollectionChanged? && Pushes(e, txHash, rows, None, ps) && Meets(e, junk, r)
    ensures Announced(r, ps) <==> NormalHex(e.collection) == e.collection
  {
    hide HexDecode, HexEncode, NormalHex, Pushes;
    NameIsNormal(e.collection, r.collection);
    OnlyOne(e, txHash, rows, ps, Push(e.collection, "collection:updated", CollectionPayload(e.collection, e.blocked)), r);
    hide Announced;
  }

  /**
   * Who hears of a change when no query breaks off. A filled or salt-cancelled row is always
   * announced under its own collection. A row cancelled by blocking is announced under the text
   * of the log, so under its own name exactly when that text is already in normal form. A row
   * cancelled by a counter is announced under no collection at all.
   */
  lemma ChangesAnnounced(e: EventData, txHash: string, junk: string -> int, rows: seq<Row>, ps: seq<Push>, i: nat)
    requires Pushes(e, txHash, rows, None, ps) && i < |rows| && HandleRows(e, junk, rows)[i] != rows[i] && Valid(rows)
    ensures Announced(rows[i], ps) <==>
            match e
            case Fulfilled(_, _) => true
            case SaltCancelled(_, _) => true
            case CounterRaised(_, _) => rows[i].collection == []
            case CollectionChanged(collection, _) => NormalHex(collection) == collection
  {
    ChangedIsMet(e, junk, rows, i);
    hide Pushes, HandleRows, Valid, Announced, Meets, NormalHex;
    match e
    case Fulfilled(_, _) => FillAnnounced(e, txHash, junk, rows, ps, i);
    case SaltCancelled(_, _) => SaltAnnounced(e, txHash, junk, rows, ps, i);
    case CounterRaised(_, _) => CounterAnnounced(e, txHash, rows, ps, rows[i]);
    case CollectionChanged(_, _) => BlockAnnounced(e, txHash, junk, rows, ps, rows[i]);
  }

  // ----- from log to update -----

  /** Which of the four signature hashes topic 0 is. */
  datatype Signature = OrderFulfilled | OrderCancelled | CounterIncremented | CollectionUpdated | Unknown

  /** types.Log, with topic 0 already compared with the known signatures. */
  datatype Log = Log(block: uint64, txIndex: nat, logIndex: nat, removed: bool,
                     signature: Signature, topics: seq<Bytes>, data: Bytes)

  /** Solidity's event layout: topics are 32-byte words, as many as the event has indexed arguments. */
  predicate LaidOut(l: Log) {
    && (forall t <- l.topics :: |t| == 32)
    && |l.topics| == match l.signature
                     case OrderFulfilled => 4
                     case OrderCancelled => 3
                     case CounterIncremented => 2
                     case CollectionUpdated => 2
                     case Unknown => |l.topics|
  }

  /** common.BytesToAddress of a word: its last twenty bytes. */
  function AddressOf(word: Bytes): Bytes
    requires |word| == 32
  {
    word[12..]
  }

  /** parseEvent; `checksum` is the mixed-case text common.Address.Hex gives an address. */
  function ParseLog(l: Log, checksum: Bytes -> string): Option<EventData>
    requires LaidOut(l)
  {
    match l.signature
    case Unknown => None
    case OrderFulfilled =>
      Some(Fulfilled("0x" + EncodeHex(l.topics[1]),
                     if |l.data| >= 384 then Decimal.Text(Decimal.BigEndian(l.data[288..320])) else ""))
    case OrderCancelled =>
      Some(SaltCancelled(checksum(AddressOf(l.topics[1])), Decimal.Text(Decimal.BigEndian(l.topics[2]))))
    case CounterIncremented =>
      Some(CounterRaised(checksum(AddressOf(l.topics[1])),
                         if |l.data| >= 32 then Decimal.Text(Decimal.BigEndian(l.data[..32])) else ""))
    case CollectionUpdated =>
      Some(CollectionChanged(checksum(AddressOf(l.topics[1])),
                             |l.data| >= 64 && Decimal.BigEndian(l.data[32..64]) == 1))
  }

  /** A "0x" text of the address in any mixture of letter cases. */
  predicate AddressText(text: string, address: Bytes) {
    "0x" <= text && Lower(text[2..]) == EncodeHex(address)
  }

  lemma AddressDecodes(text: string, address: Bytes)
    requires AddressText(text, address)
    ensures HexDecode(text) == Value(address)
  {
    DecodeEncode(address);
    LowerOfEncoded(address);
    DecodeIgnoresCase(text[2..], EncodeHex(address));
  }

  lemma {:induction false} LowerOfEncoded(b: Bytes)
    ensures Lower(EncodeHex(b)) == EncodeHex(b)
  {
    DecodeEncode(b);
    EncodeDecode(EncodeHex(b));
  }

  /** An address argument as the ABI pads it to a word. */
  function AddressWord(address: Bytes): Bytes {
    seq(12, _ => 0) + address
  }

  ghost predicate Checksums(checksum: Bytes -> string) {
    forall b :: AddressText(checksum(b), b)
  }

  /** The rows a log is about, said of its own bytes and numbers. */
  ghost predicate Meant(l: Log, address: Bytes, number: nat, r: Row)
    requires LaidOut(l)
  {
    match l.signature
    case OrderFulfilled => r.hash == l.topics[1]
    case OrderCancelled => r.maker == address && r.salt == number
    case CounterIncremented => r.maker == address && r.counter < number
    case CollectionUpdated => r.collection == address
    case Unknown => false
  }

  /** The log carries the address, and the number as the word of its kind. */
  ghost predicate Carries(l: Log, address: Bytes, number: nat) {
    && |address| == 20 && number < Decimal.Pow256(32)
    && (l.signature != OrderFulfilled ==> |l.topics| >= 2 && l.topics[1] == AddressWord(address))
    && (l.signature == OrderCancelled ==> |l.topics| >= 3 && l.topics[2] == Decimal.ToBigEndian(number, 32))
    && (l.signature == CounterIncremented ==> |l.data| >= 32 && l.data[..32] == Decimal.ToBigEndian(number, 32))
    && (l.signature == CollectionUpdated ==> |l.data| >= 64 && l.data[32..64] == Decimal.ToBigEndian(number, 32))
  }

  /** The UPDATE a log is meant to cause. */
  ghost function Intended(l: Log, address: Bytes, number: nat): Option<Update>
    requires LaidOut(l) && l.signature != Unknown
  {
    match l.signature
    case OrderFulfilled => Some(SetStatus(l.topics[1], Filled))
    case OrderCancelled => Some(CancelSalt(address, number))
    case CounterIncremented => Some(CancelCounter(address, number))
    case CollectionUpdated => if number == 1 then Some(CancelCollection(address)) else None
  }

  lemma FillReads(l: Log, checksum: Bytes -> string, junk: string -> int)
    requires LaidOut(l) && l.signature == OrderFulfilled
    ensures UpdateOf(ParseLog(l, checksum).value, junk) == Some(SetStatus(l.topics[1], Filled))
  {
    HashDecodes(l.topics[1]);
    hide HexDecode, Decimal.BigEndian, Decimal.Text;
  }

  lemma CancelReads(l: Log, checksum: Bytes -> string, junk: string -> int, address: Bytes, number: nat)
    requires LaidOut(l) && l.signature == OrderCancelled && Checksums(checksum) && Carries(l, address, number)
    ensures UpdateOf(ParseLog(l, checksum).value, junk) == Some(CancelSalt(address, number))
  {
    hide HexDecode, Checksums, AddressWord, AddressOf;
    hide Decimal.BigEndian, Decimal.ToBigEndian, Decimal.Text, Decimal.SetString, Decimal.Pow256;
    NumberReads(number, junk);
    AddressReads(checksum, address);
  }

  lemma CounterReads(l: Log, checksum: Bytes -> string, junk: string -> int, address: Bytes, number: nat)
    requires LaidOut(l) && l.signature == CounterIncremented && Checksums(checksum) && Carries(l, address, number)
    ensures UpdateOf(ParseLog(l, checksum).value, junk) == Some(CancelCounter(address, number))
  {
    hide HexDecode, Checksums, AddressWord, AddressOf;
    hide Decimal.BigEndian, Decimal.ToBigEndian, Decimal.Text, Decimal.SetString, Decimal.Pow256;
    NumberReads(number, junk);
    AddressReads(checksum, address);
  }

  lemma CollectionReads(l: Log, checksum: Bytes -> string, junk: string -> int, address: Bytes, number: nat)
    requires LaidOut(l) && l.signature == CollectionUpdated && Checksums(checksum) && Carries(l, address, number)
    ensures UpdateOf(ParseLog(l, checksum).value, junk) == if number == 1 then Some(CancelCollection(address)) else None
  {
    hide HexDecode, Checksums, AddressWord, AddressOf;
    hide Decimal.BigEndian, Decimal.ToBigEndian, Decimal.Pow256;
    NumberReads(number, junk);
    AddressReads(checksum, address);
  }

  lemma LogReads(l: Log, checksum: Bytes -> string, junk: string -> int, address: Bytes, number: nat)
    requires LaidOut(l) && l.signature != Unknown && Checksums(checksum) && Carries(l, address, number)
    ensures UpdateOf(ParseLog(l, checksum).value, junk) == Intended(l, address, number)
  {
    hide UpdateOf, ParseLog, Checksums, Carries, Decimal.Pow256;
    match l.signature
    case OrderFulfilled => FillReads(l, checksum, junk);
    case OrderCancelled => CancelReads(l, checksum, junk, address, number);
    case CounterIncremented => CounterReads(l, checksum, junk, address, number);
    case CollectionUpdated => CollectionReads(l, checksum, junk, address, number);
  }

  /**
   * Nothing is lost between a log and its UPDATE. For every 20-byte address, 32-byte hash and
   * uint256 argument, encoded as the ABI lays them out, and for every mixture of letter cases
   * in the address text, the statement targets exactly the rows with those bytes and numbers.
   */
  lemma LogTargets(l: Log, checksum: Bytes -> string, junk: string -> int, address: Bytes, number: nat, r: Row)
    requires LaidOut(l) && l.signature != Unknown && Checksums(checksum) && Carries(l, address, number)
    ensures var u := UpdateOf(ParseLog(l, checksum).value, junk);
            && (u.None? <==> l.signature == CollectionUpdated && number != 1)
            && (u.Some? ==> NewStatus(u.value) == if l.signature == OrderFulfilled then Filled else Cancelled)
            && (u.Some? ==> (Targets(u.value, r) <==> Meant(l, address, number, r)))
  {
    hide UpdateOf, ParseLog, Checksums, Carries, Decimal.Pow256;
    LogReads(l, checksum, junk, address, number);
  }

  lemma NumberReads(number: nat, junk: string -> int)
    requires number < Decimal.Pow256(32)
    ensures Decimal.BigEndian(Decimal.ToBigEndian(number, 32)) == number
    ensures Decimal.SetString(Decimal.Text(number), junk) == number
  {
    hide Decimal.BigEndian, Decimal.ToBigEndian, Decimal.Text, Decimal.Parse, Decimal.Pow256;
    Decimal.BigEndianInverse(number, 32);
    Decimal.ParseText(number);
  }

  lemma AddressReads(checksum: Bytes -> string, address: Bytes)
    requires Checksums(checksum) && |address| == 20
    ensures HexDecode(checksum(AddressOf(AddressWord(address)))) == Value(address)
  {
    assert AddressOf(AddressWord(address)) == address;
    hide HexDecode;
    AddressDecodes(checksum(address), address);
  }

  lemma HashDecodes(hash: Bytes)
    requires hash != []
    ensures HexDecode("0x" + EncodeHex(hash)) == Value(hash)
  {
    var text := "0x" + EncodeHex(hash);
    assert text[2..] == EncodeHex(hash);
    LowerOfEncoded(hash);
    AddressDecodes(text, hash);
  }

  /** Every uint256 fits the NUMERIC(78,0) columns it is compared with. */
  lemma WordsFitNumeric(word: Bytes)
    requires |word| == 32
    ensures FitsNumeric(Decimal.BigEndian(word))
  {
    Decimal.ToBigEndianInverse(word);
    Pow256Steps();
  }

  lemma Pow256Steps()
    ensures Decimal.Pow256(32) < NUMERIC_78
  {
    assert Decimal.Pow256(4) == 0x1_0000_0000;
    assert Decimal.Pow256(8) == 0x1_0000_0000 * 0x1_0000_0000;
    assert Decimal.Pow256(12) == 0x1_0000_0000 * Decimal.Pow256(8);
    assert Decimal.Pow256(16) == 0x1_0000_0000 * Decimal.Pow256(12);
    assert Decimal.Pow256(20) == 0x1_0000_0000 * Decimal.Pow256(16);
    assert Decimal.Pow256(24) == 0x1_0000_0000 * Decimal.Pow256(20);
    assert Decimal.Pow256(28) == 0x1_0000_0000 * Decimal.Pow256(24);
    assert Decimal.Pow256(32) == 0x1_0000_0000 * Decimal.Pow256(28);
  }
}
