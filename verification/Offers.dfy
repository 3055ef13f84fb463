/**
 * Requests that Submit accepts although their prices are not numbers, and a book of accepted
 * orders on which the best-order lookup answers with the wrong side.
 */
module Offers {
  import opened Common
  import opened Hex
  import opened Codec
  import opened OrderBook
  import opened Pricing
  import opened BestPrice
  import opened OrderService
  import Query
  import Decimal
  import Paging

  /** The text of n bytes whose digits are all d. */
  function Digits(d: nat, n: nat): string
    requires d < 10
  {
    "0x" + seq(2 * n, _ => '0' + d as char)
  }

  const ADDRESS: string := Digits(1, 20)
  const SIGNATURE: string := Digits(1, 65)

  /** A complete request that names one maker and one collection. */
  function Offer(side: byte, kind: byte, price: string, startPrice: string, startTime: uint64, endTime: uint64, salt: string): Request {
    Request(ADDRESS, ADDRESS, side, kind, ERC721, ADDRESS, "1", "1", ADDRESS,
            price, startPrice, startTime, endTime, salt, "", SIGNATURE)
  }

  // ----- such a request is stored -----

  lemma {:induction false} EqualDigits(d: nat, n: nat)
    requires d < 10
    ensures DecodeHex(seq(2 * n, _ => '0' + d as char)) == Some(seq(n, _ => 17 * d))
  {
    var c := '0' + d as char;
    var s, b := seq(2 * n, _ => c), seq(n, _ => 17 * d);
    if n == 0 {
      assert s == [] && b == [];
    } else {
      EqualDigits(d, n - 1);
      assert s[2..] == seq(2 * (n - 1), _ => c) && s[0] == s[1] == c;
      assert DigitValue(c) == Some(d);
      assert b == [17 * d] + seq(n - 1, _ => 17 * d);
    }
  }

  lemma TextDecodes(d: nat, n: nat)
    requires d < 10
    ensures HexDecode(Digits(d, n)) == Value(seq(n, _ => 17 * d))
  {
    EqualDigits(d, n);
    assert TrimPrefix(Digits(d, n)) == seq(2 * n, _ => '0' + d as char);
  }

  lemma SignatureSplits()
    ensures SplitSignature(SIGNATURE).Some?
  {
    var raw := seq(130, _ => '0' + 1 as char);
    assert TrimPrefix(SIGNATURE) == raw;
    assert raw[..64] == seq(64, _ => '0' + 1 as char) && raw[64..128] == seq(64, _ => '0' + 1 as char);
    assert raw[128..] == seq(2, _ => '0' + 1 as char);
    EqualDigits(1, 32);
    EqualDigits(1, 1);
  }

  lemma AddressIsHex()
    ensures IsHexAddress(ADDRESS) && ADDRESS != ZERO_ADDRESS && ADDRESS != ""
  {
    assert ADDRESS[2..] == seq(40, _ => '0' + 1 as char);
    assert ADDRESS[2] == '1' && ZERO_ADDRESS[2] == '0';
  }

  /** The row of a stored offer. */
  ghost predicate OfferRow(req: Request, hash: string, now: Instant, r: Row) {
    && HexDecode(hash) == Value(r.hash) && HexDecode(req.maker) == Value(r.maker)
    && HexDecode(req.collection) == Value(r.collection)
    && r.side == req.side && r.kind == req.kind && r.price == ParseOrZero(req.price)
    && r.salt == ParseOrZero(req.salt) && r.status == Active && r.createdAt == now
  }

  /** What makes a row: every text decodes and every number fits. */
  lemma RowStored(req: Request, hash: string, now: Instant, chainId: int)
    requires HexDecode(hash).Value? && HexDecode(req.maker).Value? && HexDecode(req.collection).Value?
    requires req.taker != "" && !HexDecode(req.taker).Malformed?
    requires req.paymentToken != "" && !HexDecode(req.paymentToken).Malformed?
    requires !HexDecode(req.extra).Malformed? && SplitSignature(req.signature).Some?
    requires NumbersFit(ToOrder(req, hash, now)) && (req.endTime > 0 ==> FitsTimestamp(ToInt64(req.endTime)))
    ensures var row := ToRow(ToOrder(req, hash, now), chainId, now);
            row.Ok? && OfferRow(req, hash, now, row.value)
  {
    hide HexDecode, SplitSignature, ParseOrZero, NumbersFit;
  }

  /** Small numbers fit their columns. */
  lemma SmallFit(req: Request, hash: string, now: Instant)
    requires 0 <= ParseOrZero(req.tokenId) < 10 && 0 <= ParseOrZero(req.amount) < 10 && 0 <= ParseOrZero(req.price) < 10
    requires 0 <= ParseOrZero(req.startPrice) < 10 && 0 <= ParseOrZero(req.salt) < 10
    ensures NumbersFit(ToOrder(req, hash, now))
  {
    hide ParseOrZero;
  }

  lemma OfferStored(req: Request, hash: string, now: Instant, chainId: int)
    requires req == Offer(req.side, req.kind, req.price, req.startPrice, req.startTime, req.endTime, req.salt)
    requires HexDecode(hash).Value? && 0 <= ParseOrZero(req.price) < 10 && 0 <= ParseOrZero(req.startPrice) < 10
    requires req.salt == "7" || req.salt == "8"
    requires req.endTime > 0 ==> FitsTimestamp(ToInt64(req.endTime))
    ensures var row := ToRow(ToOrder(req, hash, now), chainId, now);
            row.Ok? && OfferRow(req, hash, now, row.value)
  {
    TextDecodes(1, 20);
    SignatureSplits();
    AddressIsHex();
    NothingIsNull();
    TextsParse();
    hide HexDecode, Decimal.Parse, SplitSignature, ADDRESS, SIGNATURE, IsHexAddress, Digits;
    SmallFit(req, hash, now);
    RowStored(req, hash, now, chainId);
  }

  lemma NothingIsNull()
    ensures HexDecode("") == Null
  {
  }

  lemma TextsParse()
    ensures Decimal.Parse("1") == Some(1) && Decimal.Parse("5") == Some(5)
    ensures Decimal.Parse("7") == Some(7) && Decimal.Parse("8") == Some(8)
    ensures Decimal.Parse("") == None && Decimal.Parse("12x") == None
  {
    assert "12x"[2] == 'x';
  }

  /** When an offer that starts at once passes every check. */
  lemma OfferPasses(req: Request, now: Instant, junk: string -> int)
    requires req == Offer(req.side, req.kind, req.price, req.startPrice, req.startTime, req.endTime, req.salt)
    requires req.side <= 1 && req.kind <= 4 && Decimal.SetString(req.price, junk) > 0
    requires 0 < Unix(now) == req.startTime < TWO_63 - 2_592_000
    requires req.endTime == 0 || req.endTime == req.startTime + 1
    requires req.kind == DUTCH_AUCTION ==>
               req.endTime > 0 && Decimal.SetString(req.startPrice, junk) > Decimal.SetString(req.price, junk)
    ensures Refusal(req, now, junk).None?
  {
    AddressIsHex();
    TextsParse();
    hide ADDRESS, SIGNATURE, IsHexAddress, Decimal.Parse, Unix;
  }

  // ----- prices that are not numbers -----

  /**
   * A price that is no number, whose failed parse leaves something positive behind, is accepted
   * and stored as zero.
   */
  lemma JunkPriceStored(now: Instant, junk: string -> int, chainId: int)
    requires junk("12x") > 0 && 0 < Unix(now) < TWO_63 - 2_592_000
    ensures var (req, hash) := (Offer(SELL, 0, "12x", "", Unix(now), 0, "7"), Digits(3, 32));
            && !WellFormed(req.price) && Accepts(req, now, Ok(hash), junk, chainId, [])
            && ToRow(ToOrder(req, hash, now), chainId, now).value.price == 0
  {
    var req, hash := Offer(SELL, 0, "12x", "", Unix(now), 0, "7"), Digits(3, 32);
    TextsParse();
    TextDecodes(3, 32);
    hide Decimal.Parse, HexDecode, Digits, ADDRESS, SIGNATURE, Unix;
    OfferPasses(req, now, junk);
    OfferStored(req, hash, now, chainId);
    hide ToRow, Refusal;
  }

  /** Read back, a stored Dutch order costs its stored start price when it starts. */
  lemma CostsStartPrice(req: Request, hash: string, now: Instant, junk: string -> int, chainId: int)
    requires Refusal(req, now, junk).None? && req.kind == DUTCH_AUCTION && 0 < Unix(now) == req.startTime
    requires ToRow(ToOrder(req, hash, now), chainId, now).Ok?
    ensures CurrentPrice(Scan(ToRow(ToOrder(req, hash, now), chainId, now).value), now) == ParseOrZero(req.startPrice)
  {
    var o := ToOrder(req, hash, now);
    hide ToRow, Refusal, Scan, ParseOrZero, Unix;
    RowRoundTrip(o, chainId, now);
    AdmittedAuction(req, hash, now, junk);
    Endpoints(o, now);
    SamePrice(o, Scan(ToRow(o, chainId, now).value), now);
    hide CurrentPrice;
  }

  /**
   * A Dutch order whose start price is no number is accepted and stored, and read back it costs
   * less than its stored price when the auction begins.
   */
  lemma JunkStartPriceStored(now: Instant, junk: string -> int, chainId: int)
    requires junk("12x") > 5 && 0 < Unix(now) < 9_000_000_000_000
    ensures var (req, hash) := (Offer(SELL, DUTCH_AUCTION, "5", "12x", Unix(now), Unix(now) + 1, "7"), Digits(3, 32));
            var row := ToRow(ToOrder(req, hash, now), chainId, now);
            && WellFormed(req.price) && !WellFormed(req.startPrice)
            && Accepts(req, now, Ok(hash), junk, chainId, [])
            && row.value.price == 5 && CurrentPrice(Scan(row.value), now) == 0
  {
    var req, hash := Offer(SELL, DUTCH_AUCTION, "5", "12x", Unix(now), Unix(now) + 1, "7"), Digits(3, 32);
    TextsParse();
    TextDecodes(3, 32);
    hide Decimal.Parse, HexDecode, Digits, ADDRESS, SIGNATURE, Unix, ToRow, ToOrder, Refusal, Scan, CurrentPrice;
    OfferPasses(req, now, junk);
    OfferStored(req, hash, now, chainId);
    CostsStartPrice(req, hash, now, junk, chainId);
  }

  // ----- the wrong side -----

  /** A fixed-price offer with a numeric price becomes an admitted row. */
  lemma OfferAdmitted(side: byte, salt: string, hash: string, now: Instant, junk: string -> int, chainId: int) returns (r: Row)
    requires side <= 1 && (salt == "7" || salt == "8") && HexDecode(hash).Value? && 0 < Unix(now) < TWO_63 - 2_592_000
    ensures OfferRow(Offer(side, 0, "5", "", Unix(now), 0, salt), hash, now, r) && AdmittedRow(r)
    ensures r.price == 5 && r.salt == if salt == "7" then 7 else 8
  {
    var req := Offer(side, 0, "5", "", Unix(now), 0, salt);
    TextsParse();
    hide Decimal.Parse, HexDecode, ADDRESS, SIGNATURE, Unix, Refusal, ToOrder, ToRow, AdmittedRow;
    OfferPasses(req, now, junk);
    OfferStored(req, hash, now, chainId);
    r := ToRow(ToOrder(req, hash, now), chainId, now).value;
    assert r.price == 5 && r.salt == (if salt == "7" then 7 else 8) && WellFormed(req.price);
    hide OfferRow, ParseOrZero, WellFormed;
    IsAdmitted(req, hash, now, junk, chainId, r);
  }

  lemma IsAdmitted(req: Request, hash: string, now: Instant, junk: string -> int, chainId: int, r: Row)
    requires Admits(req, hash, now, junk, chainId, r)
    ensures AdmittedRow(r)
  {
    hide Admits;
  }

  lemma TwoOnPage(collection: string, q: Row, r: Row)
    requires HexDecode(collection).Value? && q.status == Active && r.status == Active
    requires q.collection == r.collection == HexDecode(collection).bytes
    ensures BestPage(collection, [q, r]) == [Scan(q), Scan(r)]
  {
    hide DecodeHex, Scan;
    var f := BestFilter(collection);
    assert Query.Matches(f, q) && Query.Matches(f, r);
    hide Query.Matches;
    assert [q, r][1..] == [r] && [r][1..] == [];
    assert Query.Matching(f, [r]) == [r];
  }

  lemma BestOfPair(q: Row, r: Row, collection: Bytes, side: byte)
    requires Listed(q, collection, side) && !Listed(r, collection, side)
    ensures Best([q, r], collection, side) == Some(q.price)
  {
    assert [q, r][1..] == [r] && [r][1..] == [];
  }

  lemma FirstAnswers(collection: string, side: byte, rows: seq<Row>, plan: seq<Row>, clock: seq<Instant>, o: Order)
    requires |clock| >= |plan| > 0 && HexDecode(collection).Value?
    requires BestPage(collection, plan) != [] && BestPage(collection, plan)[0] == o
    requires o.price.Some? && o.startPrice.Some?
    requires Best(rows, HexDecode(collection).bytes, side) == Some(CurrentPrice(o, clock[0]))
    ensures Answer(collection, side, rows, plan, clock) == Some(o)
  {
    hide CurrentPrice, DecodeHex, Best, BestPage;
    BestPageShort(collection, plan);
  }

  lemma PairListing(q: Row, r: Row)
    requires q.createdAt < r.createdAt
    ensures Paging.Listing([r, q], [q, r])
  {
    assert multiset([r, q]) == multiset{r, q} == multiset([q, r]);
  }

  lemma BothInserted(q: Row, r: Row)
    requires !Clash(q, r) && q.createdAt < r.createdAt
    ensures Run([Insert(q), Insert(r)], []) == [q, r] && Paging.Listing([r, q], [q, r])
  {
    PairListing(q, r);
    hide Paging.Listing, Clash;
    assert [Insert(q), Insert(r)][1..] == [Insert(r)] && [Insert(r)][1..] == [];
    assert Apply(Insert(q), []) == [q];
    assert Apply(Insert(r), [q]) == [q, r];
    assert Run([], [q, r]) == [q, r];
    assert Run([Insert(r)], [q]) == [q, r];
  }

  lemma HashesDiffer()
    ensures HexDecode(Digits(3, 32)).Value? && HexDecode(Digits(4, 32)).Value?
    ensures HexDecode(Digits(3, 32)) != HexDecode(Digits(4, 32))
  {
    TextDecodes(3, 32);
    TextDecodes(4, 32);
    assert HexDecode(Digits(3, 32)).bytes[0] == 51 && HexDecode(Digits(4, 32)).bytes[0] == 68;
  }

  /** Two admitted offers of the same maker, a Sell one and a later Buy one. */
  lemma TwoOffers(now: Instant, junk: string -> int, chainId: int) returns (sell: Row, buy: Row)
    requires 0 < Unix(now) && Unix(now + 1) < TWO_63 - 2_592_000
    ensures AdmittedRow(sell) && AdmittedRow(buy) && !Clash(sell, buy) && sell.createdAt < buy.createdAt
    ensures sell.side == SELL && buy.side == BUY && sell.kind == buy.kind == 0 && sell.price == buy.price == 5
    ensures sell.status == buy.status == Active && Value(sell.collection) == Value(buy.collection) == HexDecode(ADDRESS)
  {
    assert Unix(now) <= Unix(now + 1);
    HashesDiffer();
    hide Unix, HexDecode, Digits, ADDRESS, SIGNATURE, AdmittedRow;
    sell := OfferAdmitted(SELL, "7", Digits(3, 32), now, junk, chainId);
    buy := OfferAdmitted(BUY, "8", Digits(4, 32), now + 1, junk, chainId);
  }

  /**
   * Asked for the best Sell order, the lookup returns a newer Buy order at the same price, on a
   * book of two accepted orders.
   */
  lemma WrongSideAnswered(now: Instant, junk: string -> int, chainId: int) returns (sell: Row, buy: Row)
    requires 0 < Unix(now) && Unix(now + 1) < TWO_63 - 2_592_000
    ensures AdmittedRow(sell) && AdmittedRow(buy) && sell.side == SELL && Scan(buy).side == BUY
    ensures var book := Run([Insert(sell), Insert(buy)], []);
            && book == [sell, buy] && Paging.Listing([buy, sell], book)
            && Answer(ADDRESS, SELL, book, [buy, sell], [now, now]) == Some(Scan(buy))
  {
    sell, buy := TwoOffers(now, junk, chainId);
    hide HexDecode, AdmittedRow, ADDRESS, Unix;
    BothInserted(sell, buy);
    TwoOnPage(ADDRESS, buy, sell);
    BestOfPair(sell, buy, sell.collection, SELL);
    FixedPrice(buy, now);
    hide BestPage, Best, Answer, Run, Paging.Listing, CurrentPrice, Scan, Clash;
    FirstAnswers(ADDRESS, SELL, [sell, buy], [buy, sell], [now, now], Scan(buy));
  }

  lemma FixedPrice(r: Row, now: Instant)
    requires r.kind == 0
    ensures var o := Scan(r);
            o.price.Some? && o.startPrice.Some? && o.side == r.side && CurrentPrice(o, now) == r.price
  {
    hide HexEncode, EncodeHex, JoinSignature, EncodeNullable;
  }
}
