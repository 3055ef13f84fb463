/** OrderRepo over a table of rows: every statement of internal/repository/order.go as a method. */
module OrderRepo {
  import opened Common
  import opened Hex
  import opened Codec
  import opened OrderBook
  import Query
  import Paging
  import BestPrice

  class OrderRepo {
    var rows: seq<Row>
    const chainId: int

    constructor (chainId: int)
      ensures rows == [] && this.chainId == chainId
    {
      this.chainId := chainId;
      rows := [];
    }

    /** Insert, including the refusal of the two unique indexes. */
    method Insert(o: Order, now: Instant) returns (err: Option<string>)
      modifies this
      ensures var row := ToRow(o, chainId, now);
              if row.Ok? && Admissible(old(rows), row.value)
              then err.None? && rows == old(rows) + [row.value]
              else err.Some? && rows == old(rows)
      ensures Valid(old(rows)) ==> Valid(rows)
    {
      var row := ToRow(o, chainId, now);
      if row.Err? {
        return Some(row.error);
      }
      if !Admissible(rows, row.value) {
        return Some("duplicate key value violates unique constraint");
      }
      rows := rows + [row.value];
      return None;
    }

    /**
     * Exactly the Active rows whose hash the text denotes take the status, and nothing else about
     * them or any other row changes. A text that is no hex is an error; an empty one selects nothing.
     */
    method UpdateStatus(hash: string, status: Status) returns (ok: bool)
      modifies this
      ensures ok == !HexDecode(hash).Malformed?
      ensures Moved(old(rows), rows, status, (r: Row) => HexDecode(hash) == Value(r.hash))
      ensures status != Active ==> forall r <- rows :: HexDecode(hash) == Value(r.hash) ==> r.status != Active
      ensures Valid(old(rows)) ==> Valid(rows) && OneChange(old(rows), rows)
    {
      var b := HexDecode(hash);
      if b.Value? {
        var u := SetStatus(b.bytes, status);
        UpdateKeepsValid(u, rows);
        rows := ApplyUpdate(u, rows);
      }
      ok := !b.Malformed?;
    }

    /** Exactly the Active rows of the maker with the salt are cancelled; with valid indexes that is at most one. */
    method CancelByMakerSalt(maker: string, salt: int) returns (ok: bool)
      modifies this
      ensures ok == !HexDecode(maker).Malformed?
      ensures Moved(old(rows), rows, Cancelled, (r: Row) => HexDecode(maker) == Value(r.maker) && r.salt == salt)
      ensures forall r <- rows :: HexDecode(maker) == Value(r.maker) && r.salt == salt ==> r.status != Active
      ensures Valid(old(rows)) ==> Valid(rows) && OneChange(old(rows), rows)
    {
      var b := HexDecode(maker);
      if b.Value? {
        var u := CancelSalt(b.bytes, salt);
        UpdateKeepsValid(u, rows);
        rows := ApplyUpdate(u, rows);
      }
      ok := !b.Malformed?;
    }

    /** Exactly the Active rows of the maker with a smaller counter are cancelled. */
    method CancelByMakerCounter(maker: string, minCounter: int) returns (ok: bool)
      modifies this
      ensures ok == !HexDecode(maker).Malformed?
      ensures Moved(old(rows), rows, Cancelled, (r: Row) => HexDecode(maker) == Value(r.maker) && r.counter < minCounter)
      ensures forall r <- rows :: HexDecode(maker) == Value(r.maker) && r.status == Active ==> r.counter >= minCounter
      ensures Valid(old(rows)) ==> Valid(rows)
    {
      var b := HexDecode(maker);
      if b.Value? {
        var u := CancelCounter(b.bytes, minCounter);
        UpdateKeepsValid(u, rows);
        rows := ApplyUpdate(u, rows);
      }
      ok := !b.Malformed?;
    }

    /** Exactly the Active rows of the collection are cancelled. */
    method CancelByCollection(collection: string) returns (ok: bool)
      modifies this
      ensures ok == !HexDecode(collection).Malformed?
      ensures Moved(old(rows), rows, Cancelled, (r: Row) => HexDecode(collection) == Value(r.collection))
      ensures forall r <- rows :: r.status == Active ==> HexDecode(collection) != Value(r.collection)
      ensures Valid(old(rows)) ==> Valid(rows)
    {
      var b := HexDecode(collection);
      if b.Value? {
        var u := CancelCollection(b.bytes);
        UpdateKeepsValid(u, rows);
        rows := ApplyUpdate(u, rows);
      }
      ok := !b.Malformed?;
    }

    /** Expires what is due and returns exactly how many Active rows became Expired. */
    method ExpireOrders(now: Instant) returns (n: nat)
      modifies this
      ensures rows == ApplyUpdate(Expire(now), old(rows))
      ensures n == Count(old(rows), Active) - Count(rows, Active) == Count(rows, Expired) - Count(old(rows), Expired)
    {
      UpdateMoves(Expire(now), rows);
      n := Affected(Expire(now), rows);
      rows := ApplyUpdate(Expire(now), rows);
    }

    method FindByHash(hash: string) returns (r: Result<Option<Order>>)
      ensures r.Err? <==> HexDecode(hash).Malformed?
      ensures r.Ok? && r.value.Some? ==>
                exists row <- rows :: HexDecode(hash) == Value(row.hash) && r.value.value == Scan(row)
      ensures r.Ok? && r.value.None? ==> forall row <- rows :: HexDecode(hash) != Value(row.hash)
    {
      var b := HexDecode(hash);
      if b.Malformed? {
        return Err("decode hash");
      }
      for i := 0 to |rows|
        invariant forall j :: 0 <= j < i ==> b != Value(rows[j].hash)
      {
        if b == Value(rows[i].hash) {
          assert rows[i] in rows;
          return Ok(Some(Scan(rows[i])));
        }
      }
      return Ok(None);
    }

    /** The distinct collections in which the maker has an Active order, in some order. */
    method GetMakerActiveCollections(maker: string) returns (r: Result<seq<string>>)
      ensures r.Err? <==> HexDecode(maker).Malformed?
      ensures r.Ok? ==> forall c :: c in r.value <==> ListsIn(maker, c, rows)
      ensures r.Ok? ==> Paging.Distinct(r.value)
    {
      var b := HexDecode(maker);
      if b.Malformed? {
        return Err("decode maker");
      }
      var found: seq<string> := [];
      for i := 0 to |rows|
        invariant forall c :: c in found <==>
          exists j | 0 <= j < i :: rows[j].status == Active && b == Value(rows[j].maker) && c == HexEncode(rows[j].collection)
        invariant Paging.Distinct(found)
      {
        if rows[i].status == Active && b == Value(rows[i].maker) && HexEncode(rows[i].collection) !in found {
          found := found + [HexEncode(rows[i].collection)];
        }
      }
      return Ok(found);
    }

    method GetBestPrice(collection: string, side: byte) returns (r: Result<Option<int>>)
      ensures r.Err? <==> HexDecode(collection).Malformed?
      ensures r.Ok? ==> r.value == if HexDecode(collection).Value?
                                   then BestPrice.Best(rows, HexDecode(collection).bytes, side) else None
    {
      match HexDecode(collection)
      case Malformed => r := Err("decode collection");
      case Null => r := Ok(None);
      case Value(b) => r := Ok(BestPrice.Best(rows, b, side));
    }

    /**
     * Find, two statements: the count, and after whatever others write in between the page.
     * `plan` is the order in which the second one lists the table, newest first. The page is cut
     * from its matches with the limit and offset that the two last placeholders name.
     */
    method Find(f: Query.Filter, writes: seq<Step>, plan: seq<Row>) returns (r: Result<(seq<Order>, nat)>)
      requires Paging.Listing(plan, Run(writes, rows))
      modifies this
      ensures rows == if Query.Decodable(f) then Run(writes, old(rows)) else old(rows)
      ensures r.Err? <==> !Query.Decodable(f)
      ensures r.Ok? ==> r.value.1 == |Query.Matching(f, old(rows))|
      ensures r.Ok? ==>
                r.value.0 == ScanAll(Query.Slice(Query.Matching(f, plan), Paging.FindLimit(f.limit), Paging.FindOffset(f.offset)))
      ensures r.Ok? ==> |Query.Matching(f, plan)| == |Query.Matching(f, rows)|
    {
      var err, conds, args := Query.Conditions(f);
      if err.Some? {
        return Err(err.value);
      }
      var total := |Query.Select(conds, args, rows)|;
      var limit, offset := f.limit, f.offset;
      if limit <= 0 { limit := 20; }
      if offset < 0 { offset := 0; }
      var limitPh, offsetPh := |args| + 1, |args| + 2;
      var dataArgs := args + [Query.IntArg(limit), Query.IntArg(offset)];
      forall row ensures Query.WhereHolds(conds, dataArgs, row) <==> Query.Matches(f, row) {
        Query.ExtraArgs(conds, args, [Query.IntArg(limit), Query.IntArg(offset)], row);
      }
      Query.SelectIsMatching(conds, args, f, rows);
      rows := Run(writes, rows);
      var selected := Query.Select(conds, dataArgs, plan);
      Query.SelectIsMatching(conds, dataArgs, f, plan);
      Paging.SameMatches(f, plan, rows);
      var page := Query.Slice(selected, dataArgs[limitPh - 1].i, dataArgs[offsetPh - 1].i);
      return Ok((ScanAll(page), total));
    }
  }

  /** The maker has an Active order in the collection with that text. */
  ghost predicate ListsIn(maker: string, name: string, rows: seq<Row>) {
    exists r <- rows :: r.status == Active && HexDecode(maker) == Value(r.maker) && name == HexEncode(r.collection)
  }

  /** The Active rows that are meant, and no others, have taken the status; nothing else differs. */
  ghost predicate Moved(before: seq<Row>, after: seq<Row>, st: Status, meant: Row -> bool) {
    |after| == |before| &&
    forall i :: 0 <= i < |before| ==>
      after[i] == if before[i].status == Active && meant(before[i]) then before[i].(status := st) else before[i]
  }

  /** scanOrders. */
  function ScanAll(rows: seq<Row>): (orders: seq<Order>)
    ensures |orders| == |rows|
    ensures forall i :: 0 <= i < |rows| ==> orders[i] == Scan(rows[i])
  {
    seq(|rows|, i requires 0 <= i < |rows| => Scan(rows[i]))
  }
}
