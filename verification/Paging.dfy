/** parseOrderFilter's page arithmetic, the page List reports, and what the pages add up to. */
module Paging {
  import opened Common
  import opened Codec
  import opened Query
  import opened Arith

  const DEFAULT_SIZE: int64 := 20
  const MAX_SIZE: int64 := 50

  function PageNumber(page: Option<int64>): (p: int64)
    ensures p >= 1
  {
    if page.None? || page.value < 1 then 1 else page.value
  }

  function PageSize(size: Option<int64>): (n: int64)
    ensures 1 <= n <= MAX_SIZE
  {
    if size.None? || size.value < 1 then DEFAULT_SIZE else if size.value > MAX_SIZE then MAX_SIZE else size.value
  }

  /** The limit and offset of a request; None is a parameter Atoi rejects. The product wraps at 64 bits. */
  method ParsePage(page: Option<int64>, size: Option<int64>) returns (limit: int64, offset: int64)
    ensures limit == PageSize(size)
    ensures offset == Wrap64((PageNumber(page) - 1) * PageSize(size))
  {
    var p: int64 := 1;
    if page.Some? { p := page.value; }
    if page.None? || p < 1 { p := 1; }
    var n: int64 := 0;
    if size.Some? { n := size.value; }
    if size.None? || n < 1 { n := 20; }
    if n > 50 { n := 50; }
    limit, offset := n, Wrap64((p - 1) * n);
  }

  /** The defaults Find itself applies. */
  function FindLimit(limit: int64): nat {
    if limit <= 0 then 20 else limit
  }

  function FindOffset(offset: int64): nat {
    if offset < 0 then 0 else offset
  }

  /** Go's integer division, which truncates toward zero. */
  function Quotient(a: int, b: int): int
    requires b > 0
  {
    if a >= 0 then a / b else -((-a) / b)
  }

  function ReportedPage(limit: int64, offset: int64): int
    requires limit > 0
  {
    Quotient(offset, limit) + 1
  }

  lemma WrapSmall(x: nat)
    requires x < TWO_63
    ensures Wrap64(x) == x
  {
  }

  lemma Shifted(x: nat)
    requires x >= TWO_63
    ensures Wrap64(x) <= x - TWO_64
  {
    if x >= TWO_64 {
      assert x % TWO_64 == (x - TWO_64) % TWO_64;
    }
  }

  lemma QuotientBelow(w: int, q: nat, n: int)
    requires n > 0 && q > 0 && w <= q * n - n
    ensures Quotient(w, n) < q
  {
    if w >= 0 {
      Division(w, n);
      if w / n >= q {
        Product(q, w / n, n);
      }
    } else {
      assert -w / n >= 0;
    }
  }

  /** The page in the response is the page that was asked for, exactly while the offset fits 64 bits. */
  lemma ReportedPageIff(page: Option<int64>, size: Option<int64>)
    ensures var (p, n) := (PageNumber(page), PageSize(size));
            ReportedPage(n, Wrap64((p - 1) * n)) == p <==> (p - 1) * n < TWO_63
  {
    var q, n := PageNumber(page) - 1, PageSize(size);
    var x := q * n;
    Product(0, q, n);
    if x < TWO_63 {
      WrapSmall(x);
      Divides(q, n);
    } else {
      Shifted(x);
      QuotientBelow(Wrap64(x), q, n);
    }
  }

  // ----- the pages of one listing -----

  /** The rows of page p (counted from 1) when the matches are listed as m. */
  function Page<T>(m: seq<T>, p: int64, size: Option<int64>): seq<T> {
    Slice(m, FindLimit(PageSize(size)), FindOffset(Wrap64((p - 1) * PageSize(size))))
  }

  function PageCount(total: nat, size: Option<int64>): nat {
    (total + PageSize(size) - 1) / PageSize(size)
  }

  function Min(a: nat, b: nat): nat { if a < b then a else b }

  lemma PageIs<T>(m: seq<T>, k: nat, x: nat, size: Option<int64>)
    requires x == k * PageSize(size) && x < TWO_63 && k + 1 < TWO_63
    ensures Page(m, k + 1, size) == m[Min(x, |m|)..Min(x + PageSize(size), |m|)]
  {
    assert (k + 1 - 1) * PageSize(size) == x;
    WrapSmall(x);
    hide Wrap64;
  }

  /** Page k + 1 taken from listings[k]: each request may see the matches in its own order. */
  function Concat<T>(listings: seq<seq<T>>, size: Option<int64>): seq<T>
    requires |listings| < TWO_63
  {
    if listings == [] then []
    else
      var k := |listings| - 1;
      Concat(listings[..k], size) + Page(listings[k], k + 1, size)
  }

  lemma PageBounds(total: nat, k: nat, size: Option<int64>)
    requires k <= PageCount(total, size)
    ensures total <= PageCount(total, size) * PageSize(size)
    ensures k * PageSize(size) < total + PageSize(size)
    ensures k <= total
  {
    var c, n := PageCount(total, size), PageSize(size);
    Division(total + n - 1, n);
    Product(k, c, n);
    if total < k {
      Product(total + 1, k, n);
      Product(1, n, total);
    }
  }

  lemma NextPage<T>(m: seq<T>, x: nat, n: nat)
    ensures m[..Min(x, |m|)] + m[Min(x, |m|)..Min(x + n, |m|)] == m[..Min(x + n, |m|)]
  {
  }

  /** k pages of n rows, as repeated addition. */
  function Rows(k: nat, n: nat): nat {
    if k == 0 then 0 else Rows(k - 1, n) + n
  }

  lemma {:induction false} RowsIsProduct(k: nat, n: nat)
    ensures Rows(k, n) == k * n
  {
    if k == 0 {
    } else {
      RowsIsProduct(k - 1, n);
    }
  }

  lemma PageAt<T>(m: seq<T>, k: nat, size: Option<int64>)
    requires k < PageCount(|m|, size) && |m| + MAX_SIZE < TWO_63
    ensures k + 1 < TWO_63
    ensures var (x, n) := (Rows(k, PageSize(size)), PageSize(size));
            Page(m, k + 1, size) == m[Min(x, |m|)..Min(x + n, |m|)]
  {
    PageBounds(|m|, k + 1, size);
    Product(k, k + 1, PageSize(size));
    RowsIsProduct(k, PageSize(size));
    PageIs(m, k, Rows(k, PageSize(size)), size);
  }

  lemma {:induction false} ConcatOfOne<T>(m: seq<T>, k: nat, size: Option<int64>)
    requires k <= PageCount(|m|, size) && |m| + MAX_SIZE < TWO_63
    ensures k < TWO_63 && Concat(seq(k, _ => m), size) == m[..Min(Rows(k, PageSize(size)), |m|)]
  {
    hide Page, PageCount;
    if k == 0 {
    } else {
      PageAt(m, k - 1, size);
      ConcatOfOne(m, k - 1, size);
      assert seq(k, _ => m)[..k - 1] == seq(k - 1, _ => m);
      NextPage(m, Rows(k - 1, PageSize(size)), PageSize(size));
    }
  }

  /** Walking pages 1 to ceil(total / size) of one listing yields it exactly, in order. */
  lemma PagesTile<T>(m: seq<T>, size: Option<int64>)
    requires |m| + MAX_SIZE < TWO_63
    ensures PageCount(|m|, size) < TWO_63
    ensures Concat(seq(PageCount(|m|, size), _ => m), size) == m
  {
    PageBounds(|m|, PageCount(|m|, size), size);
    RowsIsProduct(PageCount(|m|, size), PageSize(size));
    ConcatOfOne(m, PageCount(|m|, size), size);
  }

  // ----- pages across requests -----

  /** An order in which ORDER BY created_at DESC may list the table. */
  ghost predicate Listing(plan: seq<Row>, rows: seq<Row>) {
    multiset(plan) == multiset(rows) && NewestFirst(plan)
  }

  ghost predicate NewestFirst(plan: seq<Row>) {
    forall i, j :: 0 <= i < j < |plan| ==> plan[i].createdAt >= plan[j].createdAt
  }

  ghost predicate NoTies(m: seq<Row>) {
    forall i, j :: 0 <= i < j < |m| ==> m[i].createdAt != m[j].createdAt
  }

  predicate Distinct<T(==)>(s: seq<T>) {
    forall i, j :: 0 <= i < j < |s| ==> s[i] != s[j]
  }

  function Listed(f: Filter, plans: seq<seq<Row>>): seq<seq<Row>> {
    seq(|plans|, i requires 0 <= i < |plans| => Matching(f, plans[i]))
  }

  lemma {:induction false} MatchingConcat(f: Filter, a: seq<Row>, b: seq<Row>)
    ensures Matching(f, a + b) == Matching(f, a) + Matching(f, b)
  {
    hide Matches;
    if a == [] {
      assert a + b == b;
    } else {
      MatchingConcat(f, a[1..], b);
      assert (a + b)[1..] == a[1..] + b && (a + b)[0] == a[0];
      var head: seq<Row> := if Matches(f, a[0]) then [a[0]] else [];
      assert head + (Matching(f, a[1..]) + Matching(f, b)) == (head + Matching(f, a[1..])) + Matching(f, b);
    }
  }

  lemma {:induction false} MatchingCounts(f: Filter, s: seq<Row>, r: Row)
    ensures multiset(Matching(f, s))[r] == if Matches(f, r) then multiset(s)[r] else 0
  {
    if s == [] {
    } else {
      MatchingCounts(f, s[1..], r);
      assert s == [s[0]] + s[1..];
    }
  }

  lemma {:induction false} MatchingWithin(f: Filter, s: seq<Row>)
    ensures forall r <- Matching(f, s) :: r in s && Matches(f, r)
  {
    if s == [] {
    } else {
      MatchingWithin(f, s[1..]);
    }
  }

  lemma {:induction false} MatchingKeepsOrder(f: Filter, s: seq<Row>)
    requires NewestFirst(s)
    ensures NewestFirst(Matching(f, s))
  {
    if s == [] {
    } else {
      MatchingKeepsOrder(f, s[1..]);
      MatchingWithin(f, s[1..]);
      forall r <- Matching(f, s[1..]) ensures s[0].createdAt >= r.createdAt {
        var i :| 0 <= i < |s[1..]| && s[1..][i] == r;
        assert s[i + 1] == r;
      }
    }
  }

  lemma SameMatches(f: Filter, a: seq<Row>, b: seq<Row>)
    requires multiset(a) == multiset(b)
    ensures multiset(Matching(f, a)) == multiset(Matching(f, b)) && |Matching(f, a)| == |Matching(f, b)|
  {
    forall r ensures multiset(Matching(f, a))[r] == multiset(Matching(f, b))[r] {
      MatchingCounts(f, a, r);
      MatchingCounts(f, b, r);
    }
    assert multiset(Matching(f, a)) == multiset(Matching(f, b));
    assert |multiset(Matching(f, a))| == |multiset(Matching(f, b))|;
  }

  /** Every request for a page, each against its own listing, together return every match exactly once. */
  ghost predicate PagesPartition(f: Filter, rows: seq<Row>, size: Option<int64>) {
    forall plans: seq<seq<Row>> ::
      |plans| == PageCount(|Matching(f, rows)|, size) && |plans| < TWO_63 &&
      (forall plan <- plans :: Listing(plan, rows)) ==>
      multiset(Concat(Listed(f, plans), size)) == multiset(Matching(f, rows))
  }

  lemma MatchingShort(f: Filter, rows: seq<Row>)
    ensures |Matching(f, rows)| <= |rows|
  {
  }

  lemma SwappedIsListing(pre: seq<Row>, x: Row, mid: seq<Row>, y: Row, post: seq<Row>)
    requires NewestFirst(pre + [x] + mid + [y] + post) && x.createdAt == y.createdAt
    ensures Listing(pre + [y] + mid + [x] + post, pre + [x] + mid + [y] + post)
  {
    var p, q := pre + [x] + mid + [y] + post, pre + [y] + mid + [x] + post;
    assert |p| == |q|;
    assert forall i :: 0 <= i < |p| ==> q[i].createdAt == p[i].createdAt;
    assert multiset(q) == multiset(pre) + multiset{y} + multiset(mid) + multiset{x} + multiset(post);
    assert multiset(p) == multiset(pre) + multiset{x} + multiset(mid) + multiset{y} + multiset(post);
  }

  // ----- no tie across a page boundary: every listing has the same pages -----

  /** No page ends with a match created at the same instant as the first match of the next page. */
  ghost predicate NoTieAcrossPages(m: seq<Row>, size: Option<int64>) {
    forall k :: 0 < k < |m| && k % PageSize(size) == 0 ==> m[k - 1].createdAt != m[k].createdAt
  }

  /** The rows created at t or later. */
  function Since(s: seq<Row>, t: Instant): seq<Row> {
    if s == [] then [] else (if s[0].createdAt >= t then [s[0]] else []) + Since(s[1..], t)
  }

  lemma {:induction false} SinceCounts(s: seq<Row>, t: Instant, r: Row)
    ensures multiset(Since(s, t))[r] == if r.createdAt >= t then multiset(s)[r] else 0
  {
    if s == [] {
    } else {
      SinceCounts(s[1..], t, r);
      assert s == [s[0]] + s[1..];
    }
  }

  /** In a listing those rows come first. */
  lemma {:induction false} SinceIsPrefix(s: seq<Row>, t: Instant, k: nat)
    requires NewestFirst(s) && k <= |s|
    requires (k > 0 ==> s[k - 1].createdAt >= t) && (k < |s| ==> s[k].createdAt < t)
    ensures Since(s, t) == s[..k]
  {
    if s == [] {
    } else if k == 0 {
      forall i | 0 <= i < |s| ensures s[i].createdAt < t {
        assert i > 0 ==> s[0].createdAt >= s[i].createdAt;
      }
      SinceNone(s, t);
    } else {
      assert s[0].createdAt >= s[k - 1].createdAt;
      TailNewestFirst(s);
      hide NewestFirst;
      SinceIsPrefix(s[1..], t, k - 1);
      assert s[..k] == [s[0]] + s[1..][..k - 1];
    }
  }

  lemma TailNewestFirst(s: seq<Row>)
    requires s != [] && NewestFirst(s)
    ensures NewestFirst(s[1..])
  {
  }

  lemma {:induction false} SinceNone(s: seq<Row>, t: Instant)
    requires forall i :: 0 <= i < |s| ==> s[i].createdAt < t
    ensures Since(s, t) == []
  {
    if s == [] {
    } else {
      SinceNone(s[1..], t);
    }
  }

  lemma SameSince(a: seq<Row>, b: seq<Row>, t: Instant)
    requires multiset(a) == multiset(b)
    ensures multiset(Since(a, t)) == multiset(Since(b, t)) && |Since(a, t)| == |Since(b, t)|
  {
    forall r ensures multiset(Since(a, t))[r] == multiset(Since(b, t))[r] {
      SinceCounts(a, t, r);
      SinceCounts(b, t, r);
    }
    assert multiset(Since(a, t)) == multiset(Since(b, t));
    assert |multiset(Since(a, t))| == |multiset(Since(b, t))|;
  }

  /** Where the rows created at t or later end. */
  lemma {:induction false} SinceEnds(s: seq<Row>, t: Instant)
    requires NewestFirst(s)
    ensures var k := |Since(s, t)|; k <= |s| && Since(s, t) == s[..k]
  {
    if s == [] {
    } else {
      SinceEnds(s[1..], t);
      if s[0].createdAt < t {
        SinceIsPrefix(s, t, 0);
      }
    }
  }

  /** Up to a boundary without a tie, two listings of the same matches hold the same ones. */
  lemma SamePrefix(m: seq<Row>, q: seq<Row>, k: nat)
    requires multiset(m) == multiset(q) && NewestFirst(m) && NewestFirst(q) && k <= |m|
    requires 0 < k < |m| ==> m[k - 1].createdAt != m[k].createdAt
    ensures |m| == |q| && multiset(m[..k]) == multiset(q[..k])
  {
    assert |m| == |multiset(m)| == |multiset(q)| == |q|;
    if k == |m| {
      assert m[..k] == m && q[..k] == q;
    } else if k > 0 {
      var t := m[k - 1].createdAt;
      SinceIsPrefix(m, t, k);
      SameSince(m, q, t);
      SinceEnds(q, t);
    }
  }

  /** Both have the same first x elements, in some order. */
  ghost predicate AgreeUpto<T>(m: seq<T>, q: seq<T>, x: nat) {
    x <= |m| == |q| && multiset(m[..x]) == multiset(q[..x])
  }

  lemma NextPageCounts<T>(m: seq<T>, q: seq<T>, page: seq<T>, x: nat, y: nat)
    requires AgreeUpto(m, q, x) && AgreeUpto(m, q, y) && x <= y && page == q[x..y]
    ensures multiset(m[..x]) + multiset(page) == multiset(m[..y])
  {
    assert q[..y] == q[..x] + q[x..y];
  }

  lemma NextListing(m: seq<Row>, q: seq<Row>, k: nat, size: Option<int64>)
    requires |m| + MAX_SIZE < TWO_63 && k < PageCount(|m|, size)
    requires multiset(m) == multiset(q) && NewestFirst(m) && NewestFirst(q) && NoTieAcrossPages(m, size)
    ensures k + 1 < TWO_63
    ensures var n: nat := PageSize(size);
            multiset(m[..Min(Rows(k, n), |m|)]) + multiset(Page(q, k + 1, size)) == multiset(m[..Min(Rows(k + 1, n), |m|)])
  {
    hide NewestFirst, NoTieAcrossPages, Page, PageCount, PageSize, Rows, Min, AgreeUpto;
    var n: nat := PageSize(size);
    RowsNext(k, n, |m|);
    BoundaryPrefix(m, q, k, size);
    BoundaryPrefix(m, q, k + 1, size);
    PageAt(q, k, size);
    NextPageCounts(m, q, Page(q, k + 1, size), Min(Rows(k, n), |m|), Min(Rows(k + 1, n), |m|));
  }

  lemma RowsNext(k: nat, n: nat, total: nat)
    ensures Rows(k + 1, n) == Rows(k, n) + n && Min(Rows(k, n), total) <= Min(Rows(k + 1, n), total)
  {
  }

  /** Listings of the same matches: what their first k pages hold is what the first k pages of m hold. */
  lemma {:induction false} PagesHoldPrefix(m: seq<Row>, listings: seq<seq<Row>>, size: Option<int64>)
    requires |m| + MAX_SIZE < TWO_63 && |listings| <= PageCount(|m|, size) && NewestFirst(m) && NoTieAcrossPages(m, size)
    requires forall q <- listings :: multiset(q) == multiset(m) && NewestFirst(q)
    ensures |listings| < TWO_63
    ensures multiset(Concat(listings, size)) == multiset(m[..Min(Rows(|listings|, PageSize(size)), |m|)])
  {
    hide Page, PageCount, NewestFirst, NoTieAcrossPages;
    PageBounds(|m|, |listings|, size);
    if listings == [] {
    } else {
      var k := |listings| - 1;
      assert listings[k] in listings;
      forall q <- listings[..k] ensures q in listings {
      }
      PagesHoldPrefix(m, listings[..k], size);
      NextListing(m, listings[k], k, size);
    }
  }

  lemma BoundaryPrefix(m: seq<Row>, q: seq<Row>, k: nat, size: Option<int64>)
    requires multiset(m) == multiset(q) && NewestFirst(m) && NewestFirst(q) && NoTieAcrossPages(m, size)
    ensures |m| == |q| && AgreeUpto(m, q, Min(Rows(k, PageSize(size)), |m|))
  {
    var n := PageSize(size);
    RowsIsProduct(k, n);
    Multiple(k, n);
    hide NewestFirst;
    SamePrefix(m, q, Min(Rows(k, n), |m|));
  }

  lemma NoTieAcrossPartition(f: Filter, rows: seq<Row>, plan: seq<Row>, size: Option<int64>)
    requires Listing(plan, rows) && |rows| + MAX_SIZE < TWO_63 && NoTieAcrossPages(Matching(f, plan), size)
    ensures PagesPartition(f, rows, size)
  {
    var m := Matching(f, plan);
    SameMatches(f, plan, rows);
    MatchingShort(f, rows);
    MatchingKeepsOrder(f, plan);
    forall plans: seq<seq<Row>>
      | |plans| == PageCount(|Matching(f, rows)|, size) && |plans| < TWO_63 && (forall p <- plans :: Listing(p, rows))
      ensures multiset(Concat(Listed(f, plans), size)) == multiset(Matching(f, rows))
    {
      SameListings(f, plans, plan, rows);
      hide Matching, NoTieAcrossPages, NewestFirst, Listing, Listed, Page;
      PagesHoldPrefix(m, Listed(f, plans), size);
      PageBounds(|m|, |plans|, size);
      RowsIsProduct(|plans|, PageSize(size));
      assert m[..|m|] == m;
    }
  }

  lemma SameListings(f: Filter, plans: seq<seq<Row>>, plan: seq<Row>, rows: seq<Row>)
    requires Listing(plan, rows) && forall p <- plans :: Listing(p, rows)
    ensures forall q <- Listed(f, plans) :: multiset(q) == multiset(Matching(f, plan)) && NewestFirst(q)
  {
    hide Matching;
    forall q <- Listed(f, plans) ensures multiset(q) == multiset(Matching(f, plan)) && NewestFirst(q) {
      var i :| 0 <= i < |plans| && Listed(f, plans)[i] == q;
      assert plans[i] in plans;
      SameMatches(f, plans[i], plan);
      MatchingKeepsOrder(f, plans[i]);
    }
  }

  // ----- a tie across a page boundary: one request may list it the other way round -----

  /** Match k of a listing, and how many matches come before it. */
  lemma {:induction false} MatchAt(f: Filter, plan: seq<Row>, k: nat) returns (a: nat)
    requires k < |Matching(f, plan)|
    ensures a < |plan| && Matches(f, plan[a]) && plan[a] == Matching(f, plan)[k] && |Matching(f, plan[..a])| == k
  {
    hide Matches;
    if Matches(f, plan[0]) && k == 0 {
      a := 0;
    } else {
      var k' := if Matches(f, plan[0]) then k - 1 else k;
      var a' := MatchAt(f, plan[1..], k');
      a := a' + 1;
      assert plan[..a][1..] == plan[1..][..a'] && plan[..a][0] == plan[0];
    }
  }

  lemma SplitMatching(f: Filter, pre: seq<Row>, x: Row, mid: seq<Row>, y: Row, post: seq<Row>)
    requires Matches(f, x) && Matches(f, y)
    ensures Matching(f, pre + [x] + mid + [y] + post)
         == Matching(f, pre) + [x] + Matching(f, mid) + [y] + Matching(f, post)
  {
    MatchingConcat(f, pre + [x] + mid + [y], post);
    MatchingConcat(f, pre + [x] + mid, [y]);
    MatchingConcat(f, pre + [x], mid);
    MatchingConcat(f, pre, [x]);
    assert Matching(f, [x]) == [x] && Matching(f, [y]) == [y];
  }

  /** Where two neighbouring matches stand in a listing. */
  lemma Neighbours(f: Filter, plan: seq<Row>, k: nat) returns (pre: seq<Row>, mid: seq<Row>, post: seq<Row>)
    requires 0 < k < |Matching(f, plan)|
    ensures var m := Matching(f, plan);
            plan == pre + [m[k - 1]] + mid + [m[k]] + post && Matches(f, m[k - 1]) && Matches(f, m[k])
    ensures |Matching(f, pre)| == k - 1 && Matching(f, mid) == []
  {
    hide Matching, Matches;
    var a := MatchAt(f, plan, k - 1);
    var x, tail := plan[a], plan[a + 1..];
    pre := plan[..a];
    TailMatches(f, pre, x, tail);
    assert plan == pre + [x] + tail;
    var b := MatchAt(f, tail, 0);
    mid, post := tail[..b], tail[b + 1..];
    assert tail == mid + [tail[b]] + post;
  }

  lemma SwapPair<T>(pre: seq<T>, x: T, y: T, post: seq<T>)
    ensures var m := pre + [x] + [] + [y] + post;
            pre + [y] + [] + [x] + post == m[|pre| := y][|pre| + 1 := x]
  {
  }

  /** Two neighbouring matches created at the same instant may be listed either way round. */
  lemma Swapped(f: Filter, plan: seq<Row>, k: nat) returns (other: seq<Row>)
    requires NewestFirst(plan) && 0 < k < |Matching(f, plan)|
    requires Matching(f, plan)[k - 1].createdAt == Matching(f, plan)[k].createdAt
    ensures Listing(other, plan)
    ensures var m := Matching(f, plan); Matching(f, other) == m[k - 1 := m[k]][k := m[k - 1]]
  {
    hide Matching, Matches, NewestFirst, Listing;
    var x, y := Matching(f, plan)[k - 1], Matching(f, plan)[k];
    var pre, mid, post := Neighbours(f, plan, k);
    other := pre + [y] + mid + [x] + post;
    SplitMatching(f, pre, x, mid, y, post);
    SplitMatching(f, pre, y, mid, x, post);
    SwapPair(Matching(f, pre), x, y, Matching(f, post));
    SwappedIsListing(pre, x, mid, y, post);
  }

  lemma TailMatches(f: Filter, pre: seq<Row>, x: Row, tail: seq<Row>)
    requires Matches(f, x)
    ensures Matching(f, pre + [x] + tail) == Matching(f, pre) + [x] + Matching(f, tail)
  {
    MatchingConcat(f, pre + [x], tail);
    MatchingConcat(f, pre, [x]);
    assert Matching(f, [x]) == [x];
  }

  /** Listings whose own page agrees with that of w, page by page, add up to w. */
  lemma {:induction false} PagesOf<T>(listings: seq<seq<T>>, w: seq<T>, size: Option<int64>)
    requires |listings| < TWO_63
    requires forall i :: 0 <= i < |listings| ==> Page(listings[i], i + 1, size) == Page(w, i + 1, size)
    ensures Concat(listings, size) == Concat(seq(|listings|, _ => w), size)
  {
    hide Page;
    if listings == [] {
    } else {
      var k := |listings| - 1;
      PagesOf(listings[..k], w, size);
      assert seq(|listings|, _ => w)[..k] == seq(k, _ => w);
    }
  }

  lemma {:induction false} RowsAscend(i: nat, j: nat, n: nat)
    requires i < j
    ensures Rows(i, n) + n <= Rows(j, n)
  {
    if i + 1 == j {
    } else {
      RowsAscend(i, j - 1, n);
    }
  }

  lemma SameSlice<T>(a: seq<T>, b: seq<T>, x: nat, y: nat)
    requires x <= y <= |a| == |b| && forall k :: x <= k < y ==> a[k] == b[k]
    ensures a[x..y] == b[x..y]
  {
  }

  /** The page that starts at the tie shows the last match of the page before once more. */
  lemma TornPages(m: seq<Row>, i: nat, j: nat, size: Option<int64>)
    requires |m| + MAX_SIZE < TWO_63 && i < PageCount(|m|, size) && 0 < Rows(j, PageSize(size)) < |m|
    ensures i + 1 < TWO_63
    ensures var k := Rows(j, PageSize(size));
            var other, w := m[k - 1 := m[k]][k := m[k - 1]], m[k := m[k - 1]];
            Page(if i == j then other else m, i + 1, size) == Page(w, i + 1, size)
  {
    hide Page, PageCount, Rows;
    var n: nat, k := PageSize(size), Rows(j, PageSize(size));
    var other, w := m[k - 1 := m[k]][k := m[k - 1]], m[k := m[k - 1]];
    var shown := if i == j then other else m;
    PageAt(shown, i, size);
    PageAt(w, i, size);
    if i < j {
      RowsAscend(i, j, n);
    } else if j < i {
      RowsAscend(j, i, n);
    }
    SameSlice(shown, w, Min(Rows(i, n), |m|), Min(Rows(i, n) + n, |m|));
  }

  lemma LostRow(m: seq<Row>, k: nat)
    requires Distinct(m) && 0 < k < |m|
    ensures multiset(m[k := m[k - 1]]) != multiset(m)
  {
    var w := m[k := m[k - 1]];
    assert m[k] in multiset(m);
    assert m[k] !in w;
    assert m[k] !in multiset(w);
  }

  /** Listings of which the j-th shows the tie the other way round; their pages are those of no listing. */
  lemma TornListings(f: Filter, plan: seq<Row>, other: seq<Row>, size: Option<int64>, j: nat) returns (plans: seq<seq<Row>>)
    requires |Matching(f, plan)| + MAX_SIZE < TWO_63
    requires 0 < j < PageCount(|Matching(f, plan)|, size) && 0 < Rows(j, PageSize(size)) < |Matching(f, plan)|
    requires var (m, k) := (Matching(f, plan), Rows(j, PageSize(size))); Matching(f, other) == m[k - 1 := m[k]][k := m[k - 1]]
    ensures |plans| == PageCount(|Matching(f, plan)|, size) < TWO_63 && forall p <- plans :: p == plan || p == other
    ensures var (m, k) := (Matching(f, plan), Rows(j, PageSize(size)));
            multiset(Concat(Listed(f, plans), size)) == multiset(m[k := m[k - 1]])
  {
    hide Matching, Matches, Page, PageSize, Concat, PageCount, Rows;
    var m, k := Matching(f, plan), Rows(j, PageSize(size));
    var c, w := PageCount(|m|, size), m[k := m[k - 1]];
    PageBounds(|m|, c, size);
    plans := seq(c, i => if i == j then other else plan);
    forall i | 0 <= i < c ensures Page(Listed(f, plans)[i], i + 1, size) == Page(w, i + 1, size) {
      TornPages(m, i, j, size);
    }
    PagesOf(Listed(f, plans), w, size);
    PagesTile(w, size);
  }

  lemma TieAcrossBreaks(f: Filter, rows: seq<Row>, plan: seq<Row>, size: Option<int64>, j: nat)
    requires Listing(plan, rows) && Distinct(plan) && |rows| + MAX_SIZE < TWO_63
    requires 0 < j < PageCount(|Matching(f, plan)|, size) && 0 < Rows(j, PageSize(size)) < |Matching(f, plan)|
    requires var (m, k) := (Matching(f, plan), Rows(j, PageSize(size))); m[k - 1].createdAt == m[k].createdAt
    ensures !PagesPartition(f, rows, size)
  {
    hide Matching, Matches, Page, PageSize, Concat, Distinct, NewestFirst, PageCount, Rows, Listed;
    var m, k := Matching(f, plan), Rows(j, PageSize(size));
    var other := Swapped(f, plan, k);
    SameMatches(f, plan, rows);
    MatchingShort(f, rows);
    var plans := TornListings(f, plan, other, size, j);
    DistinctMatching(f, plan);
    LostRow(m, k);
  }

  lemma {:induction false} DistinctMatching(f: Filter, plan: seq<Row>)
    requires Distinct(plan)
    ensures Distinct(Matching(f, plan))
  {
    if plan == [] {
    } else {
      DistinctMatching(f, plan[1..]);
      MatchingCounts(f, plan[1..], plan[0]);
      assert plan[0] !in plan[1..];
    }
  }

  lemma BoundaryOfPage(total: nat, k: nat, size: Option<int64>) returns (j: nat)
    requires 0 < k < total && k % PageSize(size) == 0
    ensures Rows(j, PageSize(size)) == k && 0 < j < PageCount(total, size)
  {
    hide PageCount, Rows;
    var n, c := PageSize(size), PageCount(total, size);
    ExactDivision(k, n);
    j := k / n;
    RowsIsProduct(j, n);
    PageBounds(total, c, size);
    if j >= c {
      Product(c, j, n);
    }
  }

  /**
   * Paging through a filter returns every match exactly once, whatever order the database picks
   * for equal created_at values on each request, exactly when no two matches with the same
   * created_at stand on either side of a page boundary.
   */
  lemma PagesPartitionIff(f: Filter, rows: seq<Row>, plan: seq<Row>, size: Option<int64>)
    requires Listing(plan, rows) && Distinct(plan) && |rows| + MAX_SIZE < TWO_63
    ensures PagesPartition(f, rows, size) <==> NoTieAcrossPages(Matching(f, plan), size)
  {
    hide Matching, PagesPartition, PageCount, Rows, Listing, Distinct;
    var m := Matching(f, plan);
    if NoTieAcrossPages(m, size) {
      NoTieAcrossPartition(f, rows, plan, size);
    } else {
      var k :| 0 < k < |m| && k % PageSize(size) == 0 && m[k - 1].createdAt == m[k].createdAt;
      var j := BoundaryOfPage(|m|, k, size);
      TieAcrossBreaks(f, rows, plan, size, j);
    }
  }

  /** Without ties there is none at a boundary; with one, a page of one row has it at a boundary. */
  lemma NoTiesAtAnySize(m: seq<Row>)
    requires NewestFirst(m)
    ensures NoTies(m) <==> forall size :: NoTieAcrossPages(m, size)
  {
    if forall size :: NoTieAcrossPages(m, size) {
      assert NoTieAcrossPages(m, Some(1));
      forall i, j | 0 <= i < j < |m| ensures m[i].createdAt != m[j].createdAt {
        assert m[i].createdAt >= m[i + 1].createdAt >= m[j].createdAt;
        assert m[i + 1 - 1].createdAt != m[i + 1].createdAt;
      }
    }
  }

  /** For every page size at once the condition is that no two matches share a created_at. */
  lemma AllSizesPartitionIff(f: Filter, rows: seq<Row>, plan: seq<Row>)
    requires Listing(plan, rows) && Distinct(plan) && |rows| + MAX_SIZE < TWO_63
    ensures (forall size :: PagesPartition(f, rows, size)) <==> NoTies(Matching(f, plan))
  {
    MatchingKeepsOrder(f, plan);
    NoTiesAtAnySize(Matching(f, plan));
    hide Matching, PagesPartition, NoTies, NoTieAcrossPages, Listing, Distinct;
    forall size ensures PagesPartition(f, rows, size) <==> NoTieAcrossPages(Matching(f, plan), size) {
      PagesPartitionIff(f, rows, plan, size);
    }
  }
}
