/** OrderService: admission of a signed order, and the lookup of the best one. */
module OrderService {
  import opened Common
  import opened Hex
  import opened Codec
  import opened OrderBook
  import opened Pricing
  import opened BestPrice
  import Query
  import Decimal
  import Paging
  import Repo = OrderRepo

  class OrderService {
    const repo: Repo.OrderRepo

    constructor (repo: Repo.OrderRepo)
      ensures this.repo == repo
    {
      this.repo := repo;
    }

    /**
     * Submit. `signer` is what signature verification answers, and `junk` the value a big.Int is
     * left with when its text does not parse.
     */
    method Submit(req: Request, now: Instant, signer: Result<string>, junk: string -> int) returns (r: Result<Order>)
      modifies repo
      ensures r.Ok? <==> Accepts(req, now, signer, junk, repo.chainId, old(repo.rows))
      ensures r.Ok? ==> (r.value == ToOrder(req, signer.value, now)
                         && repo.rows == old(repo.rows) + [ToRow(r.value, repo.chainId, now).value])
      ensures r.Err? ==> (repo.rows == old(repo.rows) && r.error == ErrorCode(req, now, signer, junk))
    {
      if signer.Err? { return Err("ORDER_SIGNATURE_INVALID"); }
      var order := ToOrder(req, signer.value, now);
      if !IsHexAddress(req.maker) || req.maker == ZERO_ADDRESS { return Err("INVALID_MAKER"); }
      if req.taker != "" && !IsHexAddress(req.taker) { return Err("INVALID_TAKER"); }
      if req.side > 1 { return Err("INVALID_SIDE"); }
      if req.kind > 4 { return Err("INVALID_KIND"); }
      if req.assetType > 1 { return Err("INVALID_ASSET_TYPE"); }
      var amount := Decimal.SetString(req.amount, junk);
      if amount <= 0 { return Err("INVALID_AMOUNT"); }
      if req.assetType == ERC721 && amount != 1 { return Err("INVALID_AMOUNT"); }
      var price := Decimal.SetString(req.price, junk);
      if price <= 0 { return Err("INVALID_PRICE"); }
      var nowUnix := Unix(now);
      if req.startTime > 0 {
        var start := ToInt64(req.startTime);
        if start < nowUnix - 300 { return Err("ORDER_EXPIRED"); }
        if start > nowUnix + 30 * 24 * 3600 { return Err("INVALID_START_TIME"); }
      }
      if req.endTime > 0 && ToInt64(req.endTime) <= nowUnix { return Err("ORDER_EXPIRED"); }
      if req.kind == DUTCH_AUCTION {
        var startPrice := Decimal.SetString(req.startPrice, junk);
        if startPrice <= price { return Err("INVALID_DUTCH_AUCTION"); }
        if req.endTime <= req.startTime { return Err("INVALID_DUTCH_AUCTION"); }
      }
      var err := repo.Insert(order, now);
      if err.Some? { return Err("ORDER_PERSIST_FAILED"); }
      return Ok(order);
    }

    /**
     * GetBest: among the newest Active orders of the collection, the first whose price, at the
     * clock reading taken when it is looked at, is the best stored price of the side. `writes`
     * is what other requests and jobs do to the table after the query for the price, `more` what
     * they do between the two queries of Find.
     */
    method GetBest(collection: string, side: byte, writes: seq<Step>, more: seq<Step>, plan: seq<Row>, clock: seq<Instant>)
      returns (r: Result<Option<Order>>)
      requires Paging.Listing(plan, Run(more, Run(writes, repo.rows))) && |clock| >= |plan|
      modifies repo
      ensures r.Err? <==> HexDecode(collection).Malformed?
      ensures r.Ok? ==> r.value == Answer(collection, side, old(repo.rows), plan, clock)
      ensures var column := HexDecode(collection);
              repo.rows == if column.Value? && Best(old(repo.rows), column.bytes, side).Some?
                           then Run(more, Run(writes, old(repo.rows))) else Run(writes, old(repo.rows))
    {
      hide CurrentPrice, FirstAt, Best, DecodeHex, Query.Matching, Query.Slice, Query.Matches, Paging.Listing, Run;
      BestPageShort(collection, plan);
      var best := repo.GetBestPrice(collection, side);
      repo.rows := Run(writes, repo.rows);
      if best.Err? { return Err(best.error); }
      if best.value.None? { return Ok(None); }
      var found := repo.Find(BestFilter(collection), more, plan);
      assert found.Ok?;  // the collection has already been decoded
      var orders := found.value.0;
      assert orders == BestPage(collection, plan);
      var k := FirstAtPrice(orders, clock, best.value.value);
      return Ok(if k < |orders| then Some(orders[k]) else None);
    }
  }

  method FirstAtPrice(orders: seq<Order>, clock: seq<Instant>, price: int) returns (k: nat)
    requires |clock| >= |orders|
    requires forall o <- orders :: o.price.Some? && o.startPrice.Some?
    ensures k == FirstAt(orders, clock, price)
  {
    k := 0;
    while k < |orders|
      invariant k <= FirstAt(orders, clock, price)
    {
      if CurrentPrice(orders[k], clock[k]) == price {
        return;
      }
      k := k + 1;
    }
  }

  predicate Accepts(req: Request, now: Instant, signer: Result<string>, junk: string -> int, chainId: int, rows: seq<Row>) {
    signer.Ok? && Refusal(req, now, junk).None? &&
    var row := ToRow(ToOrder(req, signer.value, now), chainId, now);
    row.Ok? && Admissible(rows, row.value)
  }

  function ErrorCode(req: Request, now: Instant, signer: Result<string>, junk: string -> int): string {
    if signer.Err? then "ORDER_SIGNATURE_INVALID"
    else if Refusal(req, now, junk).Some? then Refusal(req, now, junk).value
    else "ORDER_PERSIST_FAILED"
  }

  function BestFilter(collection: string): Query.Filter {
    Query.Filter("", None, None, None, collection, None, "", Some(Active), None, None, 0, 0)
  }

  /** The orders GetBest scans: the newest twenty Active ones of the collection, of either side. */
  function BestPage(collection: string, plan: seq<Row>): seq<Order> {
    Repo.ScanAll(Query.Slice(Query.Matching(BestFilter(collection), plan), 20, 0))
  }

  function Answer(collection: string, side: byte, rows: seq<Row>, plan: seq<Row>, clock: seq<Instant>): Option<Order>
    requires |clock| >= |plan|
  {
    BestPageShort(collection, plan);
    if !HexDecode(collection).Value? then None
    else
      var floor, page := Best(rows, HexDecode(collection).bytes, side), BestPage(collection, plan);
      if floor.None? || FirstAt(page, clock, floor.value) == |page| then None
      else Some(page[FirstAt(page, clock, floor.value)])
  }

  lemma BestPageShort(collection: string, plan: seq<Row>)
    ensures |BestPage(collection, plan)| <= |plan|
    ensures forall o <- BestPage(collection, plan) :: o.price.Some? && o.startPrice.Some?
  {
    Paging.MatchingShort(BestFilter(collection), plan);
  }

  lemma InListing(plan: seq<Row>, rows: seq<Row>, row: Row)
    requires multiset(plan) == multiset(rows) && row in plan
    ensures row in rows
  {
    assert row in multiset(plan);
  }

  lemma BestMatch(collection: string, r: Row)
    requires HexDecode(collection).Value? && Query.Matches(BestFilter(collection), r)
    ensures r.status == Active && r.collection == HexDecode(collection).bytes
  {
    hide DecodeHex;
  }

  lemma PageRow(collection: string, plan: seq<Row>, rows: seq<Row>, k: nat) returns (row: Row)
    requires k < |BestPage(collection, plan)| && Paging.Listing(plan, rows) && HexDecode(collection).Value?
    ensures row in rows && row.status == Active && row.collection == HexDecode(collection).bytes
    ensures Scan(row) == BestPage(collection, plan)[k]
  {
    hide HexDecode, Query.Matches, Query.Matching, Scan, BestFilter;
    var m := Query.Matching(BestFilter(collection), plan);
    var page := Query.Slice(m, 20, 0);
    row := page[k];
    assert row == m[k];
    Paging.MatchingWithin(BestFilter(collection), plan);
    BestMatch(collection, row);
    InListing(plan, rows, row);
  }

  /**
   * The answer to a Sell lookup is an Active order of the collection, and at the one instant it
   * was compared no Sell order of the collection that was listed when the best price was read,
   * whatever its auction, is cheaper.
   */
  lemma AnswerIsCheapest(steps: seq<Step>, writes: seq<Step>, more: seq<Step>, collection: string, plan: seq<Row>, clock: seq<Instant>)
    returns (k: nat)
    requires forall s <- steps :: s.Insert? ==> AdmittedRow(s.row)
    requires Paging.Listing(plan, Run(more, Run(writes, Run(steps, [])))) && |clock| >= |plan|
    requires Answer(collection, SELL, Run(steps, []), plan, clock).Some?
    ensures var (book, page) := (Run(steps, []), BestPage(collection, plan));
            var answer := Answer(collection, SELL, book, plan, clock).value;
            && k < |page| && k < |clock| && page[k] == answer && answer.price.Some? && answer.startPrice.Some?
            && (exists row <- Run(more, Run(writes, book)) ::
                  row.status == Active && Value(row.collection) == HexDecode(collection) && Scan(row) == answer)
            && (forall i :: 0 <= i < |book| && Listed(book[i], HexDecode(collection).bytes, SELL) ==>
                  CurrentPrice(answer, clock[k]) <= CurrentPrice(Scan(book[i]), clock[k]))
  {
    hide CurrentPrice, FirstAt, DecodeHex, Paging.Listing, Run, BestPage;
    var book := Run(steps, []);
    BestPageShort(collection, plan);
    k := FirstAt(BestPage(collection, plan), clock, Best(book, HexDecode(collection).bytes, SELL).value);
    forall i | 0 <= i < |book| && Listed(book[i], HexDecode(collection).bytes, SELL)
      ensures Best(book, HexDecode(collection).bytes, SELL).value <= CurrentPrice(Scan(book[i]), clock[k])
    {
      FloorHolds(steps, HexDecode(collection).bytes, i, clock[k]);
    }
    var row := PageRow(collection, plan, Run(more, Run(writes, book)), k);
  }

  // ----- the side of the answer -----

  /** Order j of the page costs the given price at its own clock reading. */
  predicate AtPrice(page: seq<Order>, clock: seq<Instant>, price: int, j: int)
    requires |clock| >= |page| && forall o <- page :: o.price.Some? && o.startPrice.Some?
  {
    0 <= j < |page| && CurrentPrice(page[j], clock[j]) == price
  }

  /** An order of the side is at the price, and no order of the other side before it is. */
  ghost predicate SideComesFirst(page: seq<Order>, clock: seq<Instant>, price: int, side: byte)
    requires |clock| >= |page| && forall o <- page :: o.price.Some? && o.startPrice.Some?
  {
    exists j :: AtPrice(page, clock, price, j) && page[j].side == side &&
                forall i :: 0 <= i < j && page[i].side != side ==> !AtPrice(page, clock, price, i)
  }

  /**
   * The scan does not look at the side. A lookup answers with an order of the requested side
   * exactly when, among the newest twenty Active orders of the collection, one of that side is
   * at the best price and no order of the other side before it is.
   */
  lemma AnswerSideIff(collection: string, side: byte, rows: seq<Row>, plan: seq<Row>, clock: seq<Instant>)
    requires |clock| >= |plan| && HexDecode(collection).Value?
    requires Best(rows, HexDecode(collection).bytes, side).Some?
    ensures |BestPage(collection, plan)| <= |plan|
    ensures forall o <- BestPage(collection, plan) :: o.price.Some? && o.startPrice.Some?
    ensures var answer := Answer(collection, side, rows, plan, clock);
            (answer.Some? && answer.value.side == side) <==>
            SideComesFirst(BestPage(collection, plan), clock, Best(rows, HexDecode(collection).bytes, side).value, side)
  {
    hide CurrentPrice, FirstAt, DecodeHex, Best, BestPage;
    BestPageShort(collection, plan);
    var page, price := BestPage(collection, plan), Best(rows, HexDecode(collection).bytes, side).value;
    var k := FirstAt(page, clock, price);
    if k < |page| && page[k].side == side {
      assert AtPrice(page, clock, price, k);
    }
    if SideComesFirst(page, clock, price, side) {
      var j :| AtPrice(page, clock, price, j) && page[j].side == side &&
               forall i :: 0 <= i < j && page[i].side != side ==> !AtPrice(page, clock, price, i);
      assert k <= j;
      assert AtPrice(page, clock, price, k);
    }
  }
}
