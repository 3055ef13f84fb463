/** OrderRepo.Find: an OrderFilter compiled to numbered placeholders and an argument list. */
module Query {
  import opened Common
  import opened Hex
  import opened Codec
  import Decimal

  /** domain.OrderFilter; a nil pointer, or a *BigInt that holds nil, is None. */
  datatype Filter = Filter(
    maker: string, side: Option<byte>, kind: Option<byte>, assetType: Option<byte>,
    collection: string, tokenId: Option<int>, paymentToken: string, status: Option<Status>,
    minPrice: Option<int>, maxPrice: Option<int>, limit: int64, offset: int64)

  datatype Col = CollectionCol | SideCol | KindCol | AssetTypeCol | MakerCol | TokenIdCol
               | PaymentTokenCol | StatusCol | PriceCol

  datatype Op = Eq | Ge | Le

  /** An argument as the driver sends it: bytes, a small integer, or decimal text. */
  datatype Arg = BytesArg(b: Bytes) | IntArg(i: int) | TextArg(s: string)

  /** "col op $ph", placeholders counted from 1. */
  datatype Cond = Cond(col: Col, op: Op, ph: nat)

  function StatusCode(s: Status): byte {
    match s case Active => 0 case Filled => 1 case Cancelled => 2 case Expired => 3
  }

  // ----- what the database makes of a condition -----

  datatype Sql = SqlNull | SqlBytes(b: Bytes) | SqlNum(i: int)

  function ColumnValue(c: Col, r: Row): Sql {
    match c
    case CollectionCol => SqlBytes(r.collection)
    case SideCol => SqlNum(r.side)
    case KindCol => SqlNum(r.kind)
    case AssetTypeCol => SqlNum(r.assetType)
    case MakerCol => SqlBytes(r.maker)
    case TokenIdCol => SqlNum(r.tokenId)
    case PaymentTokenCol => (match r.paymentToken case None => SqlNull case Some(b) => SqlBytes(b))
    case StatusCol => SqlNum(StatusCode(r.status))
    case PriceCol => SqlNum(r.price)
  }

  /** Decimal text compared with a NUMERIC column is read as a number. */
  function ArgValue(a: Arg): Sql {
    match a
    case BytesArg(b) => SqlBytes(b)
    case IntArg(i) => SqlNum(i)
    case TextArg(s) => (match Decimal.Parse(s) case None => SqlNull case Some(i) => SqlNum(i))
  }

  /** A number goes to the database as its decimal text, and is read back unchanged. */
  function NumericArg(i: int): (a: Arg)
    ensures ArgValue(a) == SqlNum(i)
  {
    Decimal.ParseText(i);
    TextArg(Decimal.Text(i))
  }

  predicate Compare(op: Op, x: Sql, y: Sql) {
    match (x, y)
    case (SqlBytes(b), SqlBytes(c)) => op == Eq && b == c
    case (SqlNum(i), SqlNum(j)) => (match op case Eq => i == j case Ge => i >= j case Le => i <= j)
    case _ => false
  }

  predicate CondHolds(c: Cond, args: seq<Arg>, r: Row) {
    1 <= c.ph <= |args| && Compare(c.op, ColumnValue(c.col, r), ArgValue(args[c.ph - 1]))
  }

  /** The conditions joined by AND; none at all is "1=1". */
  predicate WhereHolds(conds: seq<Cond>, args: seq<Arg>, r: Row) {
    forall c <- conds :: CondHolds(c, args, r)
  }

  function Select(conds: seq<Cond>, args: seq<Arg>, rows: seq<Row>): seq<Row> {
    if rows == [] then []
    else (if WhereHolds(conds, args, rows[0]) then [rows[0]] else []) + Select(conds, args, rows[1..])
  }

  /** LIMIT n OFFSET k on a result. */
  function Slice<T>(s: seq<T>, limit: nat, offset: nat): seq<T> {
    if offset >= |s| then [] else if offset + limit >= |s| then s[offset..] else s[offset..offset + limit]
  }

  // ----- what the filter means -----

  predicate HexMatches(text: string, column: Option<Bytes>) {
    text == "" || (HexDecode(text).Value? && column.Some? && column.value == HexDecode(text).bytes)
  }

  predicate Equals<T(==)>(wanted: Option<T>, column: T) {
    wanted.None? || wanted.value == column
  }

  predicate Matches(f: Filter, r: Row) {
    && HexMatches(f.collection, Some(r.collection))
    && Equals(f.side, r.side)
    && Equals(f.kind, r.kind)
    && Equals(f.assetType, r.assetType)
    && HexMatches(f.maker, Some(r.maker))
    && Equals(f.tokenId, r.tokenId)
    && HexMatches(f.paymentToken, r.paymentToken)
    && Equals(f.status, r.status)
    && (f.minPrice.Some? ==> f.minPrice.value <= r.price)
    && (f.maxPrice.Some? ==> r.price <= f.maxPrice.value)
  }

  predicate Decodable(f: Filter) {
    !HexDecode(f.collection).Malformed? && !HexDecode(f.maker).Malformed? && !HexDecode(f.paymentToken).Malformed?
  }

  function FirstMalformed(f: Filter): string {
    if HexDecode(f.collection).Malformed? then "decode collection"
    else if HexDecode(f.maker).Malformed? then "decode maker"
    else "decode payment_token"
  }

  function Matching(f: Filter, rows: seq<Row>): seq<Row> {
    if rows == [] then []
    else (if Matches(f, rows[0]) then [rows[0]] else []) + Matching(f, rows[1..])
  }

  /** The filter said of a domain order: hex texts are compared in normal form. */
  predicate MatchesOrder(f: Filter, o: Order) {
    && (f.collection == "" || NormalHex(f.collection) == NormalHex(o.collection))
    && Equals(f.side, o.side) && Equals(f.kind, o.kind) && Equals(f.assetType, o.assetType)
    && (f.maker == "" || NormalHex(f.maker) == NormalHex(o.maker))
    && Equals(f.tokenId, Number(o.tokenId))
    && (f.paymentToken == "" || (o.paymentToken != "" && NormalHex(f.paymentToken) == NormalHex(o.paymentToken)))
    && Equals(f.status, o.status)
    && (f.minPrice.Some? ==> f.minPrice.value <= Number(o.price))
    && (f.maxPrice.Some? ==> Number(o.price) <= f.maxPrice.value)
  }

  lemma SameBytes(text: string, stored: string)
    requires !HexDecode(text).Malformed? && !HexDecode(stored).Malformed?
    ensures HexMatches(text, Nullable(HexDecode(stored))) <==>
            (text == "" || (stored != "" && NormalHex(text) == NormalHex(stored)))
  {
    HexColumnRoundTrip(text);
    HexColumnRoundTrip(stored);
    hide NormalHex, DecodeHex;
  }

  /** A stored order matches a filter exactly when the order itself meets it, in any letter case. */
  lemma RowMatchesOrder(f: Filter, o: Order, chainId: int, now: Instant)
    requires Decodable(f) && ToRow(o, chainId, now).Ok?
    ensures Matches(f, ToRow(o, chainId, now).value) <==> MatchesOrder(f, o)
  {
    hide NormalHex, DecodeHex, TrimPrefix, SplitSignature, NumbersFit;
    SameBytes(f.collection, o.collection);
    SameBytes(f.maker, o.maker);
    SameBytes(f.paymentToken, o.paymentToken);
  }

  // ----- compilation -----

  /** Every condition has its own argument, numbered by position. */
  predicate Numbered(conds: seq<Cond>, args: seq<Arg>) {
    |conds| == |args| && forall i :: 0 <= i < |conds| ==> conds[i].ph == i + 1
  }

  /** Appending an argument and the condition that names it adds exactly that comparison. */
  lemma Appended(conds: seq<Cond>, args: seq<Arg>, col: Col, op: Op, a: Arg)
    requires Numbered(conds, args)
    ensures Numbered(conds + [Cond(col, op, |args + [a]|)], args + [a])
    ensures forall r :: WhereHolds(conds + [Cond(col, op, |args + [a]|)], args + [a], r) <==>
                        (WhereHolds(conds, args, r) && Compare(op, ColumnValue(col, r), ArgValue(a)))
  {
    var last := Cond(col, op, |args + [a]|);
    forall r
      ensures WhereHolds(conds + [last], args + [a], r) <==>
              (WhereHolds(conds, args, r) && Compare(op, ColumnValue(col, r), ArgValue(a)))
    {
      ExtraArgs(conds, args, [a], r);
      assert WhereHolds(conds + [last], args + [a], r) <==>
             (WhereHolds(conds, args + [a], r) && CondHolds(last, args + [a], r)) by {
        assert forall c :: c in conds + [last] <==> c in conds || c == last;
      }
    }
  }

  /** Arguments appended later (the page bounds) do not disturb the conditions. */
  lemma ExtraArgs(conds: seq<Cond>, args: seq<Arg>, more: seq<Arg>, r: Row)
    requires Numbered(conds, args)
    ensures WhereHolds(conds, args + more, r) <==> WhereHolds(conds, args, r)
  {
    forall c <- conds ensures CondHolds(c, args + more, r) <==> CondHolds(c, args, r) {
      var i :| 0 <= i < |conds| && conds[i] == c;
    }
  }

  lemma SelectIsMatching(conds: seq<Cond>, args: seq<Arg>, f: Filter, rows: seq<Row>)
    requires forall r :: WhereHolds(conds, args, r) <==> Matches(f, r)
    ensures Select(conds, args, rows) == Matching(f, rows)
  {
  }

  /** The filter's k-th field, in the order Find looks at them, as a direct test of a row. */
  ghost predicate Field(f: Filter, k: nat, r: Row) {
    match k
    case 0 => HexMatches(f.collection, Some(r.collection))
    case 1 => Equals(f.side, r.side)
    case 2 => Equals(f.kind, r.kind)
    case 3 => Equals(f.assetType, r.assetType)
    case 4 => HexMatches(f.maker, Some(r.maker))
    case 5 => Equals(f.tokenId, r.tokenId)
    case 6 => HexMatches(f.paymentToken, r.paymentToken)
    case 7 => Equals(f.status, r.status)
    case 8 => f.minPrice.Some? ==> f.minPrice.value <= r.price
    case _ => f.maxPrice.Some? ==> r.price <= f.maxPrice.value
  }

  ghost function HexClause(col: Col, text: string): Option<(Col, Op, Arg)> {
    if text == "" then None
    else match HexDecode(text)
      case Value(b) => Some((col, Eq, BytesArg(b)))
      case _ => Some((col, Eq, TextArg("")))
  }

  /** The comparison the k-th field compiles to, if it is set. */
  ghost function Clause(f: Filter, k: nat): Option<(Col, Op, Arg)> {
    match k
    case 0 => HexClause(CollectionCol, f.collection)
    case 1 => if f.side.None? then None else Some((SideCol, Eq, IntArg(f.side.value)))
    case 2 => if f.kind.None? then None else Some((KindCol, Eq, IntArg(f.kind.value)))
    case 3 => if f.assetType.None? then None else Some((AssetTypeCol, Eq, IntArg(f.assetType.value)))
    case 4 => HexClause(MakerCol, f.maker)
    case 5 => if f.tokenId.None? then None else Some((TokenIdCol, Eq, NumericArg(f.tokenId.value)))
    case 6 => HexClause(PaymentTokenCol, f.paymentToken)
    case 7 => if f.status.None? then None else Some((StatusCol, Eq, IntArg(StatusCode(f.status.value))))
    case 8 => if f.minPrice.None? then None else Some((PriceCol, Ge, NumericArg(f.minPrice.value)))
    case _ => if f.maxPrice.None? then None else Some((PriceCol, Le, NumericArg(f.maxPrice.value)))
  }

  ghost predicate ClauseHolds(c: Option<(Col, Op, Arg)>, r: Row) {
    c.Some? ==> Compare(c.value.1, ColumnValue(c.value.0, r), ArgValue(c.value.2))
  }

  lemma HexClauseMeans(col: Col, text: string, column: Option<Bytes>, r: Row)
    requires ColumnValue(col, r) == if column.None? then SqlNull else SqlBytes(column.value)
    ensures HexMatches(text, column) <==> ClauseHolds(HexClause(col, text), r)
  {
  }

  lemma ClauseMeansField(f: Filter, k: nat, r: Row)
    ensures Field(f, k, r) <==> ClauseHolds(Clause(f, k), r)
  {
    hide Decimal.Text, Decimal.Parse;
    match k
    case 0 => HexClauseMeans(CollectionCol, f.collection, Some(r.collection), r);
    case 4 => HexClauseMeans(MakerCol, f.maker, Some(r.maker), r);
    case 6 => HexClauseMeans(PaymentTokenCol, f.paymentToken, r.paymentToken, r);
    case _ =>
  }

  /** What has been compiled so far selects the rows that pass the first k fields. */
  ghost predicate Compiled(f: Filter, k: nat, conds: seq<Cond>, args: seq<Arg>) {
    Numbered(conds, args) && forall r :: WhereHolds(conds, args, r) <==> forall j | 0 <= j < k :: Field(f, j, r)
  }

  lemma CompileField(f: Filter, k: nat, conds: seq<Cond>, args: seq<Arg>)
    requires Compiled(f, k, conds, args)
    ensures Clause(f, k).None? ==> Compiled(f, k + 1, conds, args)
    ensures Clause(f, k).Some? ==>
              var (col, op, a) := Clause(f, k).value;
              Compiled(f, k + 1, conds + [Cond(col, op, |args + [a]|)], args + [a])
  {
    var conds', args' := conds, args;
    if Clause(f, k).Some? {
      var (col, op, a) := Clause(f, k).value;
      Appended(conds, args, col, op, a);
      conds', args' := conds + [Cond(col, op, |args + [a]|)], args + [a];
    }
    forall r ensures WhereHolds(conds', args', r) <==> forall j | 0 <= j < k + 1 :: Field(f, j, r) {
      ClauseMeansField(f, k, r);
      assert WhereHolds(conds', args', r) <==> (WhereHolds(conds, args, r) && Field(f, k, r));
    }
  }

  lemma CompiledNothing(f: Filter)
    ensures Compiled(f, 0, [], [])
  {
  }

  lemma CompiledAll(f: Filter, conds: seq<Cond>, args: seq<Arg>)
    requires Compiled(f, 10, conds, args)
    ensures Numbered(conds, args) && forall r :: WhereHolds(conds, args, r) <==> Matches(f, r)
  {
    forall r ensures WhereHolds(conds, args, r) <==> Matches(f, r) {
      if forall j | 0 <= j < 10 :: Field(f, j, r) {
        assert Field(f, 0, r) && Field(f, 1, r) && Field(f, 2, r) && Field(f, 3, r) && Field(f, 4, r);
        assert Field(f, 5, r) && Field(f, 6, r) && Field(f, 7, r) && Field(f, 8, r) && Field(f, 9, r);
      }
    }
  }

  /** One optional field: append its argument and the condition that names it by number. */
  method AddField(f: Filter, ghost k: nat, conds: seq<Cond>, args: seq<Arg>, col: Col, op: Op, a: Arg)
    returns (conds': seq<Cond>, args': seq<Arg>)
    requires Compiled(f, k, conds, args)
    requires Clause(f, k) == Some((col, op, a))
    ensures Compiled(f, k + 1, conds', args')
  {
    CompileField(f, k, conds, args);
    args' := args + [a];
    conds' := conds + [Cond(col, op, |args'|)];
  }

  /** The first four optional fields of Find: collection, side, kind and asset type. */
  method ItemConditions(f: Filter) returns (err: Option<string>, conds: seq<Cond>, args: seq<Arg>)
    ensures err == if HexDecode(f.collection).Malformed? then Some("decode collection") else None
    ensures err.None? ==> Compiled(f, 4, conds, args)
  {
    err, conds, args := None, [], [];
    CompiledNothing(f);
    if f.collection != "" {
      var b := HexDecode(f.collection);
      if b.Malformed? { return Some("decode collection"), [], []; }
      conds, args := AddField(f, 0, conds, args, CollectionCol, Eq, BytesArg(b.bytes));
    } else {
      CompileField(f, 0, conds, args);
    }
    if f.side.Some? {
      conds, args := AddField(f, 1, conds, args, SideCol, Eq, IntArg(f.side.value));
    } else {
      CompileField(f, 1, conds, args);
    }
    if f.kind.Some? {
      conds, args := AddField(f, 2, conds, args, KindCol, Eq, IntArg(f.kind.value));
    } else {
      CompileField(f, 2, conds, args);
    }
    if f.assetType.Some? {
      conds, args := AddField(f, 3, conds, args, AssetTypeCol, Eq, IntArg(f.assetType.value));
    } else {
      CompileField(f, 3, conds, args);
    }
  }

  /** The next three: maker, token and payment token. */
  method PartyConditions(f: Filter, conds0: seq<Cond>, args0: seq<Arg>)
    returns (err: Option<string>, conds: seq<Cond>, args: seq<Arg>)
    requires Compiled(f, 4, conds0, args0)
    ensures err == if HexDecode(f.maker).Malformed? then Some("decode maker")
                   else if HexDecode(f.paymentToken).Malformed? then Some("decode payment_token") else None
    ensures err.None? ==> Compiled(f, 7, conds, args)
  {
    hide Decimal.Text, Decimal.Parse;
    err, conds, args := None, conds0, args0;
    if f.maker != "" {
      var b := HexDecode(f.maker);
      if b.Malformed? { return Some("decode maker"), [], []; }
      conds, args := AddField(f, 4, conds, args, MakerCol, Eq, BytesArg(b.bytes));
    } else {
      CompileField(f, 4, conds, args);
    }
    if f.tokenId.Some? {
      conds, args := AddField(f, 5, conds, args, TokenIdCol, Eq, NumericArg(f.tokenId.value));
    } else {
      CompileField(f, 5, conds, args);
    }
    if f.paymentToken != "" {
      var b := HexDecode(f.paymentToken);
      if b.Malformed? { return Some("decode payment_token"), [], []; }
      conds, args := AddField(f, 6, conds, args, PaymentTokenCol, Eq, BytesArg(b.bytes));
    } else {
      CompileField(f, 6, conds, args);
    }
  }

  /**
   * The optional conditions of Find, in the order the code appends them. The compiled WHERE
   * clause, evaluated against the argument list, is the filter, for every combination of fields.
   */
  method Conditions(f: Filter) returns (err: Option<string>, conds: seq<Cond>, args: seq<Arg>)
    ensures err.None? <==> Decodable(f)
    ensures err.None? ==> Numbered(conds, args)
    ensures err.None? ==> forall r :: WhereHolds(conds, args, r) <==> Matches(f, r)
    ensures err.Some? ==> err.value == FirstMalformed(f)
  {
    hide Compiled, Decimal.Text, Decimal.Parse;
    err, conds, args := ItemConditions(f);
    if err.Some? { return; }
    err, conds, args := PartyConditions(f, conds, args);
    if err.Some? { return; }
    if f.status.Some? {
      conds, args := AddField(f, 7, conds, args, StatusCol, Eq, IntArg(StatusCode(f.status.value)));
    } else {
      CompileField(f, 7, conds, args);
    }
    if f.minPrice.Some? {
      conds, args := AddField(f, 8, conds, args, PriceCol, Ge, NumericArg(f.minPrice.value));
    } else {
      CompileField(f, 8, conds, args);
    }
    if f.maxPrice.Some? {
      conds, args := AddField(f, 9, conds, args, PriceCol, Le, NumericArg(f.maxPrice.value));
    } else {
      CompileField(f, 9, conds, args);
    }
    CompiledAll(f, conds, args);
  }
}
