/** domain.Order, the columns of the orders table, and the way a row is written and read back. */
module Codec {
  import opened Common
  import opened Hex

  datatype Status = Active | Filled | Cancelled | Expired

  const SELL: byte := 0
  const BUY: byte := 1
  const DUTCH_AUCTION: byte := 1
  const ERC721: byte := 0

  /** domain.Order. A None number is a nil *BigInt, or one that holds a nil *big.Int. */
  datatype Order = Order(
    orderHash: string, maker: string, taker: string,
    side: byte, kind: byte, assetType: byte,
    collection: string, tokenId: Option<int>, amount: Option<int>, paymentToken: string,
    price: Option<int>, startPrice: Option<int>, startTime: uint64, endTime: uint64,
    salt: Option<int>, counter: Option<int>, extra: string,
    signature: string, status: Status, createdAt: Instant)

  /** A row of the orders table, without its serial id and its updated_at. */
  datatype Row = Row(
    hash: Bytes, chainId: int, maker: Bytes, taker: Option<Bytes>,
    side: byte, kind: byte, assetType: byte,
    collection: Bytes, tokenId: int, amount: int, paymentToken: Option<Bytes>,
    price: int, startPrice: int, startTime: int64, endTime: int64,
    salt: int, counter: int, extra: Option<Bytes>,
    sigR: Bytes, sigS: Bytes, sigV: byte, status: Status,
    createdAt: Instant, expiredAt: Option<int>)

  // ----- signatures -----

  function SplitSignature(sig: string): (parts: Option<(Bytes, Bytes, byte)>)
    ensures parts.Some? ==> |parts.value.0| == 32 && |parts.value.1| == 32
  {
    var raw := TrimPrefix(sig);
    if |raw| != 130 then None
    else
      var r, s, v := DecodeHex(raw[..64]), DecodeHex(raw[64..128]), DecodeHex(raw[128..]);
      if r.Some? && s.Some? && v.Some? then Some((r.value, s.value, v.value[0])) else None
  }

  function JoinSignature(r: Bytes, s: Bytes, v: byte): string {
    "0x" + EncodeHex(r) + EncodeHex(s) + EncodeHex([v])
  }

  lemma ThreeParts(a: string, b: string, c: string)
    requires |a| == |b| == 64
    ensures var raw := a + b + c; raw[..64] == a && raw[64..128] == b && raw[128..] == c
    ensures TrimPrefix("0x" + a + b + c) == a + b + c
  {
    assert "0x" + a + b + c == "0x" + (a + b + c);
  }

  lemma SplitJoin(r: Bytes, s: Bytes, v: byte)
    requires |r| == 32 && |s| == 32
    ensures SplitSignature(JoinSignature(r, s, v)) == Some((r, s, v))
  {
    hide DecodeHex, EncodeHex, TrimPrefix;
    ThreeParts(EncodeHex(r), EncodeHex(s), EncodeHex([v]));
    DecodeEncode(r);
    DecodeEncode(s);
    DecodeEncode([v]);
  }

  lemma SplitParts(sig: string)
    requires SplitSignature(sig).Some?
    ensures var (raw, (r, s, v)) := (TrimPrefix(sig), SplitSignature(sig).value);
            && |raw| == 130 && DecodeHex(raw[..64]) == Some(r) && DecodeHex(raw[64..128]) == Some(s)
            && DecodeHex(raw[128..]).Some? && DecodeHex(raw[128..]).value == [v]
  {
    hide TrimPrefix;
  }

  lemma LowerParts(s: string)
    requires |s| == 130
    ensures Lower(s) == Lower(s[..64]) + Lower(s[64..128]) + Lower(s[128..])
  {
  }

  lemma JoinSplit(sig: string)
    requires SplitSignature(sig).Some?
    ensures var (r, s, v) := SplitSignature(sig).value;
            JoinSignature(r, s, v) == "0x" + Lower(TrimPrefix(sig))
  {
    hide SplitSignature, TrimPrefix, DecodeHex, EncodeHex, Lower;
    var raw := TrimPrefix(sig);
    SplitParts(sig);
    LowerParts(raw);
    EncodeDecode(raw[..64]);
    EncodeDecode(raw[64..128]);
    EncodeDecode(raw[128..]);
    PrefixedParts(Lower(raw[..64]), Lower(raw[64..128]), Lower(raw[128..]));
  }

  lemma PrefixedParts(a: string, b: string, c: string)
    ensures "0x" + a + b + c == "0x" + (a + b + c)
  {
  }

  // ----- one row -----

  /** bigIntStr and the NUMERIC column: nil is written as zero. */
  function Number(n: Option<int>): int {
    match n case None => 0 case Some(i) => i
  }

  const NUMERIC_78: int := 1_000000000000_000000000000_000000000000_000000000000_000000000000_000000000000_000000

  predicate FitsNumeric(i: int) {
    -NUMERIC_78 < i < NUMERIC_78
  }

  predicate NumbersFit(o: Order) {
    && FitsNumeric(Number(o.tokenId)) && FitsNumeric(Number(o.amount))
    && FitsNumeric(Number(o.price)) && FitsNumeric(Number(o.startPrice))
    && FitsNumeric(Number(o.salt)) && FitsNumeric(Number(o.counter))
  }

  /** The seconds a TIMESTAMPTZ column can hold: 4714-11-24 BC up to the end of the year 294276. */
  predicate FitsTimestamp(seconds: int) {
    -210_866_803_200 <= seconds < 9_224_318_016_000
  }

  /** expired_at: the end time, and NULL when there is none. */
  function ExpiredAt(o: Order): Option<int> {
    if o.endTime > 0 then Some(ToInt64(o.endTime)) else None
  }

  /** The bytes a nullable column receives. */
  function Nullable(c: Column): Option<Bytes>
    requires !c.Malformed?
  {
    match c case Null => None case Value(b) => Some(b)
  }

  /**
   * OrderRepo.Insert up to the uniqueness checks: the row it sends, or why it is refused.
   * An empty NOT NULL address or hash is refused by the column, the rest by decoding.
   */
  function ToRow(o: Order, chainId: int, now: Instant): Result<Row> {
    var hash, maker, taker := HexDecode(o.orderHash), HexDecode(o.maker), HexDecode(o.taker);
    var collection, payment, extra := HexDecode(o.collection), HexDecode(o.paymentToken), HexDecode(o.extra);
    var sig := SplitSignature(o.signature);
    if hash.Malformed? then Err("decode order_hash")
    else if maker.Malformed? then Err("decode maker")
    else if taker.Malformed? then Err("decode taker")
    else if collection.Malformed? then Err("decode collection")
    else if payment.Malformed? then Err("decode payment_token")
    else if extra.Malformed? then Err("decode extra")
    else if sig.None? then Err("split signature")
    else if ExpiredAt(o).Some? && !FitsTimestamp(ExpiredAt(o).value) then Err("timestamp out of range")
    else if hash.Null? || maker.Null? || collection.Null? then Err("null value in a NOT NULL column")
    else if !NumbersFit(o) then Err("numeric field overflow")
    else
      var (r, s, v) := sig.value;
      Ok(Row(hash.bytes, chainId, maker.bytes, Nullable(taker), o.side, o.kind, o.assetType,
             collection.bytes, Number(o.tokenId), Number(o.amount), Nullable(payment),
             Number(o.price), Number(o.startPrice), ToInt64(o.startTime), ToInt64(o.endTime),
             Number(o.salt), Number(o.counter), Nullable(extra), r, s, v, o.status,
             now, ExpiredAt(o)))
  }

  function EncodeNullable(b: Option<Bytes>): string {
    match b case None => "" case Some(bytes) => HexEncode(bytes)
  }

  /** scanOrders on one row. */
  function Scan(r: Row): Order {
    Order(HexEncode(r.hash), HexEncode(r.maker), EncodeNullable(r.taker), r.side, r.kind, r.assetType,
          HexEncode(r.collection), Some(r.tokenId), Some(r.amount), EncodeNullable(r.paymentToken),
          Some(r.price), Some(r.startPrice), ToUint64(r.startTime), ToUint64(r.endTime),
          Some(r.salt), Some(r.counter), EncodeNullable(r.extra),
          JoinSignature(r.sigR, r.sigS, r.sigV), r.status, r.createdAt)
  }

  // ----- the round trip -----

  /** The text a hex field comes back as: lower case, with the prefix, and "0x" alone as nothing. */
  function NormalHex(s: string): string {
    if TrimPrefix(s) == "" then "" else "0x" + Lower(TrimPrefix(s))
  }

  function NormalNumber(n: Option<int>): Option<int> {
    Some(Number(n))
  }

  /** The normal form of an order; createdAt is the database's own clock. */
  function Normal(o: Order, now: Instant): Order {
    o.(orderHash := NormalHex(o.orderHash), maker := NormalHex(o.maker), taker := NormalHex(o.taker),
       collection := NormalHex(o.collection), paymentToken := NormalHex(o.paymentToken), extra := NormalHex(o.extra),
       tokenId := NormalNumber(o.tokenId), amount := NormalNumber(o.amount), price := NormalNumber(o.price),
       startPrice := NormalNumber(o.startPrice), salt := NormalNumber(o.salt), counter := NormalNumber(o.counter),
       signature := "0x" + Lower(TrimPrefix(o.signature)), createdAt := now)
  }

  lemma HexColumnRoundTrip(s: string)
    requires !HexDecode(s).Malformed?
    ensures EncodeNullable(Nullable(HexDecode(s))) == NormalHex(s)
    ensures NormalHex(NormalHex(s)) == NormalHex(s)
    ensures HexDecode(NormalHex(s)) == if TrimPrefix(s) == "" then Null else HexDecode(s)
  {
    var t := TrimPrefix(s);
    if t == "" {
      assert DecodeHex(t) == Some([]);
    } else {
      LowerTwice(t);
      EncodeDecode(t);
      DecodeIgnoresCase(Lower(t), t);
      hide DecodeHex, EncodeHex, Lower;
      assert TrimPrefix("0x" + Lower(t)) == Lower(t);
    }
  }

  /** Insert then scanOrders gives back the order in its normal form. */
  lemma RowRoundTrip(o: Order, chainId: int, now: Instant)
    requires ToRow(o, chainId, now).Ok?
    ensures Scan(ToRow(o, chainId, now).value) == Normal(o, now)
  {
    hide DecodeHex, EncodeHex, Lower, TrimPrefix;
    var back, n := Scan(ToRow(o, chainId, now).value), Normal(o, now);
    assert back.orderHash == n.orderHash by { HexColumnRoundTrip(o.orderHash); }
    assert back.maker == n.maker by { HexColumnRoundTrip(o.maker); }
    assert back.taker == n.taker by { HexColumnRoundTrip(o.taker); }
    assert back.collection == n.collection by { HexColumnRoundTrip(o.collection); }
    assert back.paymentToken == n.paymentToken by { HexColumnRoundTrip(o.paymentToken); }
    assert back.extra == n.extra by { HexColumnRoundTrip(o.extra); }
    assert back.signature == n.signature by { JoinSplit(o.signature); }
  }

  lemma NormalSignature(sig: string)
    requires SplitSignature(sig).Some?
    ensures var n := "0x" + Lower(TrimPrefix(sig));
            SplitSignature(n) == SplitSignature(sig) && "0x" + Lower(TrimPrefix(n)) == n
  {
    JoinSplit(sig);
    var (r, s, v) := SplitSignature(sig).value;
    SplitJoin(r, s, v);
    LowerTwice(TrimPrefix(sig));
    hide Lower, SplitSignature, JoinSignature;
    assert TrimPrefix("0x" + Lower(TrimPrefix(sig))) == Lower(TrimPrefix(sig));
  }

  lemma NormalTwice(o: Order, chainId: int, now: Instant)
    requires ToRow(o, chainId, now).Ok?
    ensures Normal(Normal(o, now), now) == Normal(o, now)
  {
    var o1 := Normal(o, now);
    var o2 := Normal(o1, now);
    assert o2.signature == o1.signature by { NormalSignature(o.signature); }
    assert o2.orderHash == o1.orderHash by { HexColumnRoundTrip(o.orderHash); }
    assert o2.maker == o1.maker by { HexColumnRoundTrip(o.maker); }
    assert o2.taker == o1.taker by { HexColumnRoundTrip(o.taker); }
    assert o2.collection == o1.collection by { HexColumnRoundTrip(o.collection); }
    assert o2.paymentToken == o1.paymentToken by { HexColumnRoundTrip(o.paymentToken); }
    assert o2.extra == o1.extra by { HexColumnRoundTrip(o.extra); }
  }

  lemma NormalAccepted(o: Order, chainId: int, now: Instant)
    requires ToRow(o, chainId, now).Ok?
    ensures ToRow(Normal(o, now), chainId, now).Ok? <==>
            (TrimPrefix(o.orderHash) != "" && TrimPrefix(o.maker) != "" && TrimPrefix(o.collection) != "")
  {
    hide DecodeHex, EncodeHex, Lower, NormalHex, SplitSignature;
    var o1 := Normal(o, now);
    assert SplitSignature(o1.signature).Some? by { NormalSignature(o.signature); }
    assert HexDecode(o1.orderHash).Value? <==> TrimPrefix(o.orderHash) != "" by { HexColumnRoundTrip(o.orderHash); }
    assert HexDecode(o1.maker).Value? <==> TrimPrefix(o.maker) != "" by { HexColumnRoundTrip(o.maker); }
    assert HexDecode(o1.collection).Value? <==> TrimPrefix(o.collection) != "" by { HexColumnRoundTrip(o.collection); }
    assert !HexDecode(o1.orderHash).Malformed? by { HexColumnRoundTrip(o.orderHash); }
    assert !HexDecode(o1.maker).Malformed? by { HexColumnRoundTrip(o.maker); }
    assert !HexDecode(o1.collection).Malformed? by { HexColumnRoundTrip(o.collection); }
    assert !HexDecode(o1.taker).Malformed? by { HexColumnRoundTrip(o.taker); }
    assert !HexDecode(o1.paymentToken).Malformed? by { HexColumnRoundTrip(o.paymentToken); }
    assert !HexDecode(o1.extra).Malformed? by { HexColumnRoundTrip(o.extra); }
    assert NumbersFit(o1);
  }

  /**
   * A second trip is the identity on what the first one returned, exactly when the three
   * NOT NULL texts hold at least one byte: a lone "0x" is accepted once and comes back as
   * the empty text, which the column then refuses.
   */
  lemma SecondTrip(o: Order, chainId: int, now: Instant)
    requires ToRow(o, chainId, now).Ok?
    ensures var o1 := Scan(ToRow(o, chainId, now).value);
            var again := ToRow(o1, chainId, now);
            (again.Ok? && Scan(again.value) == o1) <==>
            (TrimPrefix(o.orderHash) != "" && TrimPrefix(o.maker) != "" && TrimPrefix(o.collection) != "")
  {
    RowRoundTrip(o, chainId, now);
    NormalAccepted(o, chainId, now);
    NormalTwice(o, chainId, now);
    if ToRow(Normal(o, now), chainId, now).Ok? {
      RowRoundTrip(Normal(o, now), chainId, now);
    }
  }
}
