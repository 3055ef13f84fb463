/** The best stored price of a collection, and why it bounds every current price from below. */
module BestPrice {
  import opened Common
  import opened Codec
  import opened OrderBook
  import opened Pricing

  predicate Listed(r: Row, collection: Bytes, side: byte) {
    r.collection == collection && r.side == side && r.status == Active
  }

  predicate Better(side: byte, p: int, q: int) {
    if side == BUY then p >= q else p <= q
  }

  /** SELECT price ... ORDER BY price ASC (DESC for Buy) LIMIT 1. */
  function Best(rows: seq<Row>, collection: Bytes, side: byte): (p: Option<int>)
    ensures p.None? <==> forall r <- rows :: !Listed(r, collection, side)
    ensures p.Some? ==> exists r <- rows :: Listed(r, collection, side) && r.price == p.value
    ensures p.Some? ==> forall r <- rows :: Listed(r, collection, side) ==> Better(side, p.value, r.price)
  {
    if rows == [] then None
    else
      var rest := Best(rows[1..], collection, side);
      assert forall r :: r in rows <==> r == rows[0] || r in rows[1..];
      if !Listed(rows[0], collection, side) then rest
      else if rest.Some? && Better(side, rest.value, rows[0].price) then rest
      else Some(rows[0].price)
  }

  /** A row that Submit stored, from numeric price texts, at some instant after the epoch. */
  ghost predicate AdmittedRow(r: Row) {
    exists req: Request, hash: string, now: Instant, junk: string -> int, chainId: int ::
      Admits(req, hash, now, junk, chainId, r)
  }

  ghost predicate Admits(req: Request, hash: string, now: Instant, junk: string -> int, chainId: int, r: Row) {
    && Refusal(req, now, junk).None? && Unix(now) >= 0
    && WellFormed(req.price) && (req.kind == DUTCH_AUCTION ==> WellFormed(req.startPrice))
    && ToRow(ToOrder(req, hash, now), chainId, now) == Ok(r)
  }

  lemma AdmittedRowFloor(r: Row, t: Instant)
    requires AdmittedRow(r)
    ensures r.price <= CurrentPrice(Scan(r), t)
  {
    var req: Request, hash: string, now: Instant, junk: string -> int, chainId: int :|
      Admits(req, hash, now, junk, chainId, r);
    var o := ToOrder(req, hash, now);
    AdmittedFloorIff(req, hash, now, junk);
    RowRoundTrip(o, chainId, now);
    SamePrice(Scan(r), o, t);
    assert CurrentPrice(o, t) >= o.price.value;
  }

  lemma SamePrice(o: Order, o': Order, t: Instant)
    requires o.price.Some? && o.startPrice.Some?
    requires o.kind == o'.kind && o.price == o'.price && o.startPrice == o'.startPrice
    requires o.startTime == o'.startTime && o.endTime == o'.endTime
    ensures CurrentPrice(o, t) == CurrentPrice(o', t)
  {
  }

  /** In every reachable book of admitted orders, the best Sell price is below every listed order at every time. */
  lemma FloorHolds(steps: seq<Step>, collection: Bytes, i: nat, t: Instant)
    requires forall s <- steps :: s.Insert? ==> AdmittedRow(s.row)
    requires i < |Run(steps, [])| && Listed(Run(steps, [])[i], collection, SELL)
    ensures var book := Run(steps, []);
            Best(book, collection, SELL).Some? &&
            Best(book, collection, SELL).value <= CurrentPrice(Scan(book[i]), t)
  {
    var book := Run(steps, []);
    assert book[i] in book;
    var m := FirstWins(steps, [], i);
    var born := steps[m].row;
    assert steps[m] in steps;
    AdmittedRowFloor(born, t);
    assert book[i] == born.(status := book[i].status);
    SamePrice(Scan(book[i]), Scan(born), t);
  }

  // ----- expiry -----

  ghost predicate StoredRow(r: Row) {
    exists o: Order, chainId: int, created: Instant :: ToRow(o, chainId, created) == Ok(r)
  }

  /**
   * The expiry job at an instant turns an Active order of any reachable book into Expired exactly
   * when IsExpired says so at that instant, and touches no other order.
   */
  lemma ExpiresExactly(steps: seq<Step>, now: Instant, i: nat)
    requires forall s <- steps :: s.Insert? ==> StoredRow(s.row)
    requires i < |Run(steps, [])|
    ensures var r := Run(steps, [])[i];
            ApplyUpdate(Expire(now), Run(steps, []))[i] ==
              if r.status == Active && IsExpired(Scan(r), now) then r.(status := Expired) else r
  {
    hide Scan, Run, StoredRow;
    var r := Run(steps, [])[i];
    var m := FirstWins(steps, [], i);
    var born := steps[m].row;
    assert steps[m] in steps;
    assert r == born.(status := r.status);
    ExpiryOfStored(born, now);
    SameExpiry(born, r, now);
  }

  lemma ExpiryOfStored(r: Row, now: Instant)
    requires StoredRow(r)
    ensures Targets(Expire(now), r) <==> IsExpired(Scan(r), now)
  {
    var o: Order, chainId: int, created: Instant :| ToRow(o, chainId, created) == Ok(r);
    hide ToRow, Scan, IsExpired, Targets;
    ExpiryAgrees(o, chainId, created, now);
  }

  lemma SameExpiry(r: Row, r': Row, now: Instant)
    requires r.endTime == r'.endTime && r.expiredAt == r'.expiredAt
    ensures Targets(Expire(now), r) == Targets(Expire(now), r') && IsExpired(Scan(r), now) == IsExpired(Scan(r'), now)
  {
  }

  // ----- GetBest -----

  /** The scan of GetBest: the first order whose price at its own clock reading is the best price. */
  function FirstAt(orders: seq<Order>, clock: seq<Instant>, price: int): (k: nat)
    requires |clock| >= |orders|
    requires forall o <- orders :: o.price.Some? && o.startPrice.Some?
    ensures k <= |orders|
    ensures k < |orders| ==> CurrentPrice(orders[k], clock[k]) == price
    ensures forall j :: 0 <= j < k ==> CurrentPrice(orders[j], clock[j]) != price
  {
    if orders == [] || CurrentPrice(orders[0], clock[0]) == price then 0
    else 1 + FirstAt(orders[1..], clock[1..], price)
  }
}
