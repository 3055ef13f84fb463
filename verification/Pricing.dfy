/** Dutch-auction pricing, expiry, and what order admission guarantees about them. */
module Pricing {
  import opened Common
  import opened Codec
  import opened OrderBook
  import opened Arith
  import Hex
  import Decimal

  /** The 64-bit difference of two times that lie d seconds apart. */
  function Duration(d: int): (w: int64)
    requires 0 < d < TWO_64
    ensures w == if d < TWO_63 then d else d - TWO_64
    ensures w != 0
  {
    Wrap64(d)
  }

  /** Order.CurrentPrice; the two differences of times are 64-bit, and Div is Euclidean. */
  function CurrentPrice(o: Order, now: Instant): int
    requires o.price.Some? && o.startPrice.Some?
  {
    var price, startPrice := o.price.value, o.startPrice.value;
    var start, end, ts := ToInt64(o.startTime), ToInt64(o.endTime), Unix(now);
    if o.kind != DUTCH_AUCTION then price
    else if end == 0 || end <= start then price
    else if ts <= start then startPrice
    else if ts >= end then price
    else startPrice - (startPrice - price) * Wrap64(ts - start) / Duration(end - start)
  }

  /** Order.IsExpired. */
  predicate IsExpired(o: Order, now: Instant) {
    o.endTime != 0 && Unix(now) >= ToInt64(o.endTime)
  }

  // ----- the price curve -----

  /** A Dutch auction whose two times, as int64, are in order. */
  predicate DutchAuction(o: Order) {
    && o.kind == DUTCH_AUCTION && o.price.Some? && o.startPrice.Some?
    && ToInt64(o.endTime) != 0 && ToInt64(o.startTime) < ToInt64(o.endTime)
  }

  /** One whose length survives the 64-bit subtraction as well. */
  predicate RealAuction(o: Order) {
    DutchAuction(o) && ToInt64(o.endTime) - ToInt64(o.startTime) < TWO_63
  }

  ghost function Line(top: int, delta: int, elapsed: int, d: int): real
    requires d > 0
  {
    top as real - delta as real * elapsed as real / d as real
  }

  /** The straight line from (start, startPrice) to (end, price), without rounding. */
  ghost function ExactLine(o: Order, ts: int): real
    requires DutchAuction(o)
  {
    var start, end := ToInt64(o.startTime), ToInt64(o.endTime);
    Line(o.startPrice.value, o.startPrice.value - o.price.value, ts - start, end - start)
  }

  ghost predicate IsCeiling(i: int, x: real) {
    x <= i as real < x + 1.0
  }

  lemma CeilingOfLine(top: int, delta: int, elapsed: int, d: int)
    requires d > 0
    ensures IsCeiling(top - delta * elapsed / d, Line(top, delta, elapsed, d))
  {
    var a := delta * elapsed;
    FloorOfQuotient(a, d);
    assert a as real == delta as real * elapsed as real;
  }

  lemma CeilingAtEnds(top: int, delta: int, d: int)
    requires d > 0
    ensures IsCeiling(top, Line(top, delta, 0, d))
    ensures IsCeiling(top - delta, Line(top, delta, d, d))
  {
    Divides(delta, d);
    CeilingOfLine(top, delta, 0, d);
    CeilingOfLine(top, delta, d, d);
  }

  /** Between its endpoints the price is the exact line rounded up to a whole unit. */
  lemma PriceIsCeiling(o: Order, now: Instant)
    requires RealAuction(o) && ToInt64(o.startTime) <= Unix(now) <= ToInt64(o.endTime)
    ensures IsCeiling(CurrentPrice(o, now), ExactLine(o, Unix(now)))
  {
    var elapsed: int := Unix(now) - ToInt64(o.startTime);
    var d: int := ToInt64(o.endTime) - ToInt64(o.startTime);
    var delta := o.startPrice.value - o.price.value;
    Endpoints(o, now);
    hide CurrentPrice, Line, IsCeiling;
    CeilingAtEnds(o.startPrice.value, delta, d);
    CeilingOfLine(o.startPrice.value, delta, elapsed, d);
    if 0 < elapsed < d {
      PriceBetween(o, now);
    }
  }

  lemma Endpoints(o: Order, now: Instant)
    requires DutchAuction(o)
    ensures Unix(now) <= ToInt64(o.startTime) ==> CurrentPrice(o, now) == o.startPrice.value
    ensures Unix(now) >= ToInt64(o.endTime) ==> CurrentPrice(o, now) == o.price.value
  {
  }

  /** Within a real auction no difference wraps. */
  lemma PriceBetween(o: Order, now: Instant)
    requires RealAuction(o) && ToInt64(o.startTime) < Unix(now) < ToInt64(o.endTime)
    ensures var elapsed, d := Unix(now) - ToInt64(o.startTime), ToInt64(o.endTime) - ToInt64(o.startTime);
            0 < elapsed < d &&
            CurrentPrice(o, now) == o.startPrice.value - (o.startPrice.value - o.price.value) * elapsed / d
  {
  }

  lemma PriceWithin(o: Order, now: Instant)
    requires RealAuction(o) && o.price.value <= o.startPrice.value
    ensures o.price.value <= CurrentPrice(o, now) <= o.startPrice.value
  {
    var elapsed: int := Unix(now) - ToInt64(o.startTime);
    var d: int := ToInt64(o.endTime) - ToInt64(o.startTime);
    var delta := o.startPrice.value - o.price.value;
    Endpoints(o, now);
    hide CurrentPrice;
    if 0 < elapsed < d {
      PriceBetween(o, now);
      Product(0, elapsed, delta);
      Product(elapsed, d, delta);
      QuotientMonotone(0, delta * elapsed, d);
      QuotientMonotone(delta * elapsed, delta * d, d);
      Divides(delta, d);
    }
  }

  lemma PriceFalls(o: Order, t1: Instant, t2: Instant)
    requires RealAuction(o) && o.price.value <= o.startPrice.value && t1 <= t2
    ensures CurrentPrice(o, t1) >= CurrentPrice(o, t2)
  {
    PriceWithin(o, t1);
    PriceWithin(o, t2);
    Endpoints(o, t1);
    Endpoints(o, t2);
    QuotientMonotone(t1, t2, SECOND);
    hide CurrentPrice, Unix;
    var start, end := ToInt64(o.startTime), ToInt64(o.endTime);
    if start < Unix(t1) && Unix(t2) < end {
      var delta := o.startPrice.value - o.price.value;
      var d: int := end - start;
      var e1: int, e2: int := Unix(t1) - start, Unix(t2) - start;
      PriceBetween(o, t1);
      PriceBetween(o, t2);
      Product(e1, e2, delta);
      QuotientMonotone(delta * e1, delta * e2, d);
    }
  }

  // ----- the curve of every Dutch order, whatever its times -----

  /** Wherever the price is looked at between the two times, it is the exact line rounded up. */
  ghost predicate FollowsLine(o: Order)
    requires DutchAuction(o)
  {
    forall now :: ToInt64(o.startTime) <= Unix(now) <= ToInt64(o.endTime) ==>
      IsCeiling(CurrentPrice(o, now), ExactLine(o, Unix(now)))
  }

  /** The code's quotient at `elapsed` seconds into an auction of `d` seconds. */
  function CodeQuotient(delta: int, elapsed: int, d: int): int
    requires 0 < d < TWO_64
  {
    delta * Wrap64(elapsed) / Duration(d)
  }

  lemma PriceAt(o: Order, elapsed: int) returns (now: Instant)
    requires DutchAuction(o)
    requires var d := ToInt64(o.endTime) - ToInt64(o.startTime); 0 < elapsed < d
    ensures Unix(now) == ToInt64(o.startTime) + elapsed
    ensures var d := ToInt64(o.endTime) - ToInt64(o.startTime);
            CurrentPrice(o, now) == o.startPrice.value - CodeQuotient(o.startPrice.value - o.price.value, elapsed, d)
  {
    now := (ToInt64(o.startTime) + elapsed) * SECOND;
    Divides(ToInt64(o.startTime) + elapsed, SECOND);
  }

  /** Only the exact quotient rounds the line up. */
  lemma OffTheLine(o: Order, elapsed: int)
    requires DutchAuction(o)
    requires var d := ToInt64(o.endTime) - ToInt64(o.startTime);
             0 < elapsed < d &&
             CodeQuotient(o.startPrice.value - o.price.value, elapsed, d) != (o.startPrice.value - o.price.value) * elapsed / d
    ensures !FollowsLine(o)
  {
    var d, delta := ToInt64(o.endTime) - ToInt64(o.startTime), o.startPrice.value - o.price.value;
    var now := PriceAt(o, elapsed);
    CeilingOfLine(o.startPrice.value, delta, elapsed, d);
    OneCeiling(CurrentPrice(o, now), o.startPrice.value - delta * elapsed / d, ExactLine(o, Unix(now)));
  }

  lemma OneCeiling(i: int, j: int, x: real)
    requires i != j && IsCeiling(j, x)
    ensures !IsCeiling(i, x)
  {
  }

  /**
   * The overflow of the 64-bit differences does not show: the length of the auction fits 63
   * bits, or the prices are equal, or one unit apart over exactly 2^63 seconds.
   */
  predicate Undisturbed(o: Order)
    requires DutchAuction(o)
  {
    var d, delta := ToInt64(o.endTime) - ToInt64(o.startTime), o.startPrice.value - o.price.value;
    d < TWO_63 || delta == 0 || (d == TWO_63 && delta == 1)
  }

  /** A length of 2^63 or more makes the divisor negative, and the price rises when it should fall. */
  lemma NegativeQuotient(delta: int, d: int)
    requires TWO_63 <= d < TWO_64 && delta > 0 && !(d == TWO_63 && delta == 1)
    ensures CodeQuotient(delta, TWO_63 - 1, d) < 0
  {
    var x, b := delta * (TWO_63 - 1), TWO_64 - d;
    NegativeDivisor(x, b);
    if delta > 1 {
      Product(2, delta, TWO_63 - 1);
    }
    QuotientAtLeast(x, 1, b);
  }

  /** Somewhere the code's quotient is not the exact one. */
  lemma WrongQuotient(delta: int, d: int) returns (elapsed: int)
    requires TWO_63 <= d < TWO_64 && delta != 0 && !(d == TWO_63 && delta == 1)
    ensures 0 < elapsed < d && CodeQuotient(delta, elapsed, d) != delta * elapsed / d
  {
    if delta < 0 {
      elapsed := 1;
      NegativeDivisor(delta, TWO_64 - d);
      QuotientAtMost(delta, -1, TWO_64 - d);
      QuotientAtMost(delta, -1, d);
      assert delta * 1 == delta;
    } else {
      elapsed := TWO_63 - 1;
      NegativeQuotient(delta, d);
      Product(0, elapsed, delta);
      QuotientAtLeast(delta * elapsed, 0, d);
    }
  }

  lemma RisesAbove(o: Order) returns (now: Instant)
    requires DutchAuction(o) && o.price.value < o.startPrice.value && !Undisturbed(o)
    ensures ToInt64(o.startTime) < Unix(now) && CurrentPrice(o, now) > o.startPrice.value
  {
    NegativeQuotient(o.startPrice.value - o.price.value, ToInt64(o.endTime) - ToInt64(o.startTime));
    now := PriceAt(o, TWO_63 - 1);
  }

  lemma TinyQuotient(delta: int, elapsed: int, d: int)
    requires TWO_63 <= d < TWO_64 && 0 < elapsed < d && (delta == 0 || (delta == 1 && d == TWO_63))
    ensures CodeQuotient(delta, elapsed, d) == delta * elapsed / d == 0
  {
    if delta == 0 {
      assert 0 * Wrap64(elapsed) == 0 && 0 * elapsed == 0;
    } else {
      NegativeDivisor(elapsed, d);
    }
  }

  /** An overflow that does not show leaves the start price in place until the end. */
  lemma Flat(o: Order, now: Instant)
    requires DutchAuction(o) && Undisturbed(o) && !RealAuction(o) && Unix(now) < ToInt64(o.endTime)
    ensures CurrentPrice(o, now) == o.startPrice.value
    ensures var d, elapsed := ToInt64(o.endTime) - ToInt64(o.startTime), Unix(now) - ToInt64(o.startTime);
            0 < elapsed ==> (o.startPrice.value - o.price.value) * elapsed / d == 0
  {
    var d, elapsed := ToInt64(o.endTime) - ToInt64(o.startTime), Unix(now) - ToInt64(o.startTime);
    if 0 < elapsed {
      TinyQuotient(o.startPrice.value - o.price.value, elapsed, d);
    }
  }

  /** Flat or falling, the line is rounded up. */
  lemma UndisturbedCeiling(o: Order, now: Instant)
    requires DutchAuction(o) && Undisturbed(o) && ToInt64(o.startTime) <= Unix(now) <= ToInt64(o.endTime)
    ensures IsCeiling(CurrentPrice(o, now), ExactLine(o, Unix(now)))
  {
    var d, delta := ToInt64(o.endTime) - ToInt64(o.startTime), o.startPrice.value - o.price.value;
    hide CurrentPrice, Line, IsCeiling;
    if RealAuction(o) {
      PriceIsCeiling(o, now);
    } else {
      var elapsed: int := Unix(now) - ToInt64(o.startTime);
      Endpoints(o, now);
      CeilingAtEnds(o.startPrice.value, delta, d);
      CeilingOfLine(o.startPrice.value, delta, elapsed, d);
      if elapsed < d {
        Flat(o, now);
      }
    }
  }

  /**
   * The price of a Dutch order follows the exact line at every time between its endpoints,
   * exactly when the overflow does not show.
   */
  lemma FollowsLineIff(o: Order)
    requires DutchAuction(o)
    ensures FollowsLine(o) <==> Undisturbed(o)
  {
    var d, delta := ToInt64(o.endTime) - ToInt64(o.startTime), o.startPrice.value - o.price.value;
    if Undisturbed(o) {
      forall now | ToInt64(o.startTime) <= Unix(now) <= ToInt64(o.endTime)
        ensures IsCeiling(CurrentPrice(o, now), ExactLine(o, Unix(now)))
      {
        UndisturbedCeiling(o, now);
      }
    } else {
      var elapsed := WrongQuotient(delta, d);
      OffTheLine(o, elapsed);
    }
  }

  ghost predicate AlwaysWithin(o: Order)
    requires DutchAuction(o)
  {
    forall now: Instant :: o.price.value <= CurrentPrice(o, now) <= o.startPrice.value
  }

  ghost predicate NeverRises(o: Order)
    requires DutchAuction(o)
  {
    forall t1: Instant, t2: Instant :: t1 <= t2 ==> CurrentPrice(o, t1) >= CurrentPrice(o, t2)
  }

  /** The auction starts at the start price and ends at the end price. */
  lemma StartAndEnd(o: Order) returns (t1: Instant, t2: Instant)
    requires DutchAuction(o)
    ensures Unix(t1) == ToInt64(o.startTime) && CurrentPrice(o, t1) == o.startPrice.value
    ensures t1 <= t2 && CurrentPrice(o, t2) == o.price.value
  {
    t1, t2 := ToInt64(o.startTime) * SECOND, ToInt64(o.endTime) * SECOND;
    Divides(ToInt64(o.startTime), SECOND);
    Divides(ToInt64(o.endTime), SECOND);
    Endpoints(o, t1);
    Endpoints(o, t2);
  }

  /**
   * The price lies between end and start price at every time, exactly when these are in order
   * and the overflow does not show.
   */
  lemma PriceWithinIff(o: Order)
    requires DutchAuction(o)
    ensures AlwaysWithin(o) <==> o.price.value <= o.startPrice.value && Undisturbed(o)
  {
    hide CurrentPrice;
    if o.price.value <= o.startPrice.value && Undisturbed(o) {
      forall now ensures o.price.value <= CurrentPrice(o, now) <= o.startPrice.value {
        Endpoints(o, now);
        if RealAuction(o) {
          PriceWithin(o, now);
        } else if Unix(now) < ToInt64(o.endTime) {
          Flat(o, now);
        }
      }
    } else if o.price.value < o.startPrice.value {
      var now := RisesAbove(o);
    } else {
      var t1, t2 := StartAndEnd(o);
    }
  }

  /**
   * The price never rises, exactly when the start price is at least the end price and the
   * overflow does not show.
   */
  lemma PriceFallsIff(o: Order)
    requires DutchAuction(o)
    ensures NeverRises(o) <==> o.price.value <= o.startPrice.value && Undisturbed(o)
  {
    hide CurrentPrice;
    var t1, t2 := StartAndEnd(o);
    if o.price.value <= o.startPrice.value && Undisturbed(o) {
      forall t1, t2 | t1 <= t2 ensures CurrentPrice(o, t1) >= CurrentPrice(o, t2) {
        UndisturbedFalls(o, t1, t2);
      }
    } else if o.price.value < o.startPrice.value {
      var now := RisesAbove(o);
      assert t1 <= now;
    }
  }

  lemma UndisturbedFalls(o: Order, t1: Instant, t2: Instant)
    requires DutchAuction(o) && o.price.value <= o.startPrice.value && Undisturbed(o) && t1 <= t2
    ensures CurrentPrice(o, t1) >= CurrentPrice(o, t2)
  {
    hide CurrentPrice, Unix;
    if RealAuction(o) {
      PriceFalls(o, t1, t2);
    } else {
      UnixMonotone(t1, t2);
      Endpoints(o, t1);
      Endpoints(o, t2);
      if Unix(t1) < ToInt64(o.endTime) {
        Flat(o, t1);
      }
      if Unix(t2) < ToInt64(o.endTime) {
        Flat(o, t2);
      }
    }
  }

  lemma UnixMonotone(t1: Instant, t2: Instant)
    requires t1 <= t2
    ensures Unix(t1) <= Unix(t2)
  {
    QuotientMonotone(t1, t2, SECOND);
  }

  /** A start time of 2^63 is read as a negative one, and the price falls below the end price. */
  lemma WrappedBelowFloor(o: Order)
    requires o.kind == DUTCH_AUCTION && o.startTime == TWO_63 && o.endTime == 2_000_000_000
    requires o.price == Some(1_000_000) && o.startPrice == Some(1_000_000_000_000_001_000_000)
    ensures DutchAuction(o) && CurrentPrice(o, 1_700_000_000 * SECOND) < 0 < o.price.value
  {
    Divides(1_700_000_000, SECOND);
  }

  // ----- admission -----

  /** domain.SubmitOrderRequest. */
  datatype Request = Request(
    maker: string, taker: string, side: byte, kind: byte, assetType: byte,
    collection: string, tokenId: string, amount: string, paymentToken: string,
    price: string, startPrice: string, startTime: uint64, endTime: uint64,
    salt: string, extra: string, signature: string)

  const ZERO_ADDRESS: string := "0x0000000000000000000000000000000000000000"

  /** common.IsHexAddress of go-ethereum: either prefix, or none, and forty hex digits. */
  predicate IsHexAddress(s: string) {
    var digits := if "0x" <= s || "0X" <= s then s[2..] else s;
    |digits| == 40 && forall c <- digits :: Hex.DigitValue(c).Some?
  }

  function ParseOrZero(s: string): int {
    match Decimal.Parse(s) case None => 0 case Some(i) => i
  }

  /** requestToOrder, with the hash that verification returned. */
  function ToOrder(req: Request, hash: string, now: Instant): Order {
    Order(hash, req.maker, if req.taker == "" then ZERO_ADDRESS else req.taker,
          req.side, req.kind, req.assetType, req.collection,
          Some(ParseOrZero(req.tokenId)), Some(ParseOrZero(req.amount)),
          if req.paymentToken == "" then ZERO_ADDRESS else req.paymentToken,
          Some(ParseOrZero(req.price)), Some(ParseOrZero(req.startPrice)), req.startTime, req.endTime,
          Some(ParseOrZero(req.salt)), Some(0), req.extra, req.signature, Active, now)
  }

  /** Why Submit refuses a correctly signed request, checks in the code's order; None if it does not. */
  function Refusal(req: Request, now: Instant, junk: string -> int): Option<string> {
    var amount, price := Decimal.SetString(req.amount, junk), Decimal.SetString(req.price, junk);
    var nowUnix, start := Unix(now), ToInt64(req.startTime);
    if !IsHexAddress(req.maker) || req.maker == ZERO_ADDRESS then Some("INVALID_MAKER")
    else if req.taker != "" && !IsHexAddress(req.taker) then Some("INVALID_TAKER")
    else if req.side > 1 then Some("INVALID_SIDE")
    else if req.kind > 4 then Some("INVALID_KIND")
    else if req.assetType > 1 then Some("INVALID_ASSET_TYPE")
    else if amount <= 0 then Some("INVALID_AMOUNT")
    else if req.assetType == ERC721 && amount != 1 then Some("INVALID_AMOUNT")
    else if price <= 0 then Some("INVALID_PRICE")
    else if req.startTime > 0 && start < nowUnix - 300 then Some("ORDER_EXPIRED")
    else if req.startTime > 0 && start > nowUnix + 30 * 24 * 3600 then Some("INVALID_START_TIME")
    else if req.endTime > 0 && ToInt64(req.endTime) <= nowUnix then Some("ORDER_EXPIRED")
    else if req.kind == DUTCH_AUCTION && Decimal.SetString(req.startPrice, junk) <= price
    then Some("INVALID_DUTCH_AUCTION")
    else if req.kind == DUTCH_AUCTION && req.endTime <= req.startTime then Some("INVALID_DUTCH_AUCTION")
    else None
  }

  predicate WellFormed(s: string) {
    Decimal.Parse(s).Some?
  }

  /**
   * The validated number and the stored one are read separately: an admitted order has a
   * positive price exactly when its price text is a number, and likewise its amount.
   */
  lemma AdmittedNumbersIff(req: Request, hash: string, now: Instant, junk: string -> int)
    requires Refusal(req, now, junk).None?
    ensures ToOrder(req, hash, now).price.value > 0 <==> WellFormed(req.price)
    ensures ToOrder(req, hash, now).amount.value >= 1 <==> WellFormed(req.amount)
    ensures WellFormed(req.amount) && req.assetType == ERC721 ==> ToOrder(req, hash, now).amount.value == 1
  {
  }

  /** The rules of admission on the request's own numbers, without 64-bit casts. */
  predicate MeetsRules(req: Request, t: int, amount: int, price: int, startPrice: int) {
    && IsHexAddress(req.maker) && req.maker != ZERO_ADDRESS && (req.taker == "" || IsHexAddress(req.taker))
    && req.side <= 1 && req.kind <= 4 && req.assetType <= 1
    && amount >= 1 && (req.assetType == ERC721 ==> amount == 1) && price >= 1
    && (req.startTime == 0 || t - 300 <= req.startTime <= t + 2_592_000)
    && (req.endTime == 0 || t < req.endTime < TWO_63)
    && (req.kind == DUTCH_AUCTION ==> startPrice > price && req.endTime > req.startTime)
  }

  /**
   * Submit's casts and comparisons amount to those rules at every clock reading between 300
   * seconds after the epoch and 2^62: a time of 2^63 or more is always refused.
   */
  lemma AdmissionIff(req: Request, now: Instant, junk: string -> int)
    requires 300 <= Unix(now) < TWO_63 / 2
    ensures Refusal(req, now, junk).None? <==>
            MeetsRules(req, Unix(now), Decimal.SetString(req.amount, junk), Decimal.SetString(req.price, junk),
                       Decimal.SetString(req.startPrice, junk))
  {
  }

  /** An admitted Dutch order's times are below 2^63 and in order, so the int64 conversions lose nothing. */
  lemma AdmittedAuction(req: Request, hash: string, now: Instant, junk: string -> int)
    requires Refusal(req, now, junk).None? && req.kind == DUTCH_AUCTION && Unix(now) >= 0
    ensures RealAuction(ToOrder(req, hash, now))
    ensures ToInt64(req.startTime) == req.startTime && ToInt64(req.endTime) == req.endTime
    ensures Unix(now) < req.endTime && (req.startTime > 0 ==> req.startTime >= Unix(now) - 300)
  {
  }

  /** The stored price is a floor of the price over time. */
  ghost predicate PriceIsFloor(o: Order)
    requires o.price.Some? && o.startPrice.Some?
  {
    forall t :: CurrentPrice(o, t) >= o.price.value
  }

  /** For an admitted order with a numeric price, that holds exactly unless a Dutch start price is not a number. */
  lemma AdmittedFloorIff(req: Request, hash: string, now: Instant, junk: string -> int)
    requires Refusal(req, now, junk).None? && WellFormed(req.price) && Unix(now) >= 0
    ensures PriceIsFloor(ToOrder(req, hash, now)) <==> (req.kind == DUTCH_AUCTION ==> WellFormed(req.startPrice))
  {
    var o := ToOrder(req, hash, now);
    if req.kind == DUTCH_AUCTION {
      AdmittedAuction(req, hash, now, junk);
      if WellFormed(req.startPrice) {
        forall t ensures CurrentPrice(o, t) >= o.price.value {
          PriceWithin(o, t);
        }
      } else {
        var t := ToInt64(o.startTime) * SECOND;
        Divides(ToInt64(o.startTime), SECOND);
        Endpoints(o, t);
        assert CurrentPrice(o, t) == 0 < o.price.value;
      }
    }
  }

  /** Every promise about the curve of an admitted Dutch order with numeric prices. */
  lemma AdmittedCurve(req: Request, hash: string, now: Instant, junk: string -> int, t1: Instant, t2: Instant)
    requires Refusal(req, now, junk).None? && req.kind == DUTCH_AUCTION && Unix(now) >= 0
    requires WellFormed(req.price) && WellFormed(req.startPrice) && t1 <= t2
    ensures var o := ToOrder(req, hash, now);
            && 0 < o.price.value <= CurrentPrice(o, t2) <= CurrentPrice(o, t1) <= o.startPrice.value
            && (Unix(t1) <= req.startTime ==> CurrentPrice(o, t1) == o.startPrice.value)
            && (Unix(t2) >= req.endTime ==> CurrentPrice(o, t2) == o.price.value)
            && (req.startTime <= Unix(t1) <= req.endTime ==>
                  RealAuction(o) && IsCeiling(CurrentPrice(o, t1), ExactLine(o, Unix(t1))))
  {
    var o := ToOrder(req, hash, now);
    AdmittedAuction(req, hash, now, junk);
    AdmittedNumbersIff(req, hash, now, junk);
    PriceWithin(o, t1);
    PriceWithin(o, t2);
    PriceFalls(o, t1, t2);
    Endpoints(o, t1);
    Endpoints(o, t2);
    if req.startTime <= Unix(t1) <= req.endTime {
      PriceIsCeiling(o, t1);
    }
  }

  // ----- expiry -----

  lemma ExpiryInSeconds(e: int, now: Instant)
    ensures e * SECOND <= now <==> Unix(now) >= e
  {
    Division(now, SECOND);
    if e * SECOND <= now {
      QuotientMonotone(e * SECOND, now, SECOND);
      Divides(e, SECOND);
    } else if Unix(now) >= e {
      Product(e, Unix(now), SECOND);
    }
  }

  /** The SQL expiry test and IsExpired agree on every stored row at every instant. */
  lemma ExpiryAgrees(o: Order, chainId: int, created: Instant, now: Instant)
    requires ToRow(o, chainId, created).Ok?
    ensures var r := ToRow(o, chainId, created).value;
            Targets(Expire(now), r) <==> IsExpired(Scan(r), now)
  {
    hide Hex.HexDecode, Hex.HexEncode, SplitSignature, JoinSignature, NumbersFit, EncodeNullable;
    ExpiryInSeconds(ToInt64(o.endTime), now);
    assert ToUint64(ToInt64(o.endTime)) == o.endTime;
  }
}
