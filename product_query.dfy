/** The product listing (`GET /products`): a `where` clause built from the
    query parameters, the rows that satisfy it in the requested order, and
    the page of them the page number and page size select, with the total
    count and the number of pages. */
module ProductQuery {
  import opened Common
  import opened Sorting
  import opened ProductModel

  datatype SortKey = CreatedAt | Price | Name | Stock
  datatype Direction = Asc | Desc

  type Positive = n: int | n >= 1 witness 1

  /** The query string, already parsed. An absent or empty parameter is
      `None`: both are falsy, so neither adds a condition. */
  datatype Query = Query(
    page: Positive,
    limit: Positive,
    search: Option<string>,
    categoryId: Option<int>,
    minPrice: Option<int>,
    maxPrice: Option<int>,
    minStock: Option<int>,
    maxStock: Option<int>,
    sortBy: SortKey,
    order: Direction)

  /** The query with every parameter left out: first page of ten, newest
      first. */
  const DefaultQuery := Query(1, 10, None, None, None, None, None, None, CreatedAt, Desc)

  /** One entry of the `where` object. */
  datatype Condition =
    | NameLike(pattern: string)
    | CategoryIs(categoryId: int)
    | PriceAtLeast(minPrice: int)
    | PriceAtMost(maxPrice: int)
    | StockAtLeast(minStock: int)
    | StockAtMost(maxStock: int)

  /** The `where` object, entry by entry, in the order the handler adds them:
      name, category, then the price bounds under one `price` entry, then
      the stock bounds under one `stock` entry. */
  function BuildWhere(q: Query): seq<Condition> {
    NameWhere(q) + CategoryWhere(q) + PriceWhere(q) + StockWhere(q)
  }

  function NameWhere(q: Query): seq<Condition> {
    if q.search.Some? then [NameLike(q.search.value)] else []
  }

  function CategoryWhere(q: Query): seq<Condition> {
    if q.categoryId.Some? then [CategoryIs(q.categoryId.value)] else []
  }

  /** The `price` entry: present when either bound is, holding the bounds
      that are. */
  function PriceWhere(q: Query): seq<Condition> {
    if q.minPrice.Some? || q.maxPrice.Some? then
      (if q.minPrice.Some? then [PriceAtLeast(q.minPrice.value)] else [])
      + (if q.maxPrice.Some? then [PriceAtMost(q.maxPrice.value)] else [])
    else []
  }

  function StockWhere(q: Query): seq<Condition> {
    if q.minStock.Some? || q.maxStock.Some? then
      (if q.minStock.Some? then [StockAtLeast(q.minStock.value)] else [])
      + (if q.maxStock.Some? then [StockAtMost(q.maxStock.value)] else [])
    else []
  }

  /** What the database makes of one condition. `iLike '%s%'` is a
      case-insensitive substring test. */
  predicate Satisfies(p: Product, c: Condition) {
    match c
    case NameLike(s) => Contains(Lower(p.name), Lower(s))
    case CategoryIs(id) => p.categoryId == id
    case PriceAtLeast(m) => p.price >= m
    case PriceAtMost(m) => p.price <= m
    case StockAtLeast(m) => p.stock >= m
    case StockAtMost(m) => p.stock <= m
  }

  predicate SatisfiesAll(p: Product, where: seq<Condition>) {
    forall i :: 0 <= i < |where| ==> Satisfies(p, where[i])
  }

  /** The listing's filter stated parameter by parameter: each supplied
      parameter constrains one field, the ranges are inclusive at both ends,
      and an absent parameter constrains nothing. */
  predicate Matches(p: Product, q: Query) {
    && (q.search.None? || Contains(Lower(p.name), Lower(q.search.value)))
    && (q.categoryId.None? || p.categoryId == q.categoryId.value)
    && (q.minPrice.None? || p.price >= q.minPrice.value)
    && (q.maxPrice.None? || p.price <= q.maxPrice.value)
    && (q.minStock.None? || p.stock >= q.minStock.value)
    && (q.maxStock.None? || p.stock <= q.maxStock.value)
  }

  lemma SatisfiesAllConcat(p: Product, a: seq<Condition>, b: seq<Condition>)
    ensures SatisfiesAll(p, a + b) <==> SatisfiesAll(p, a) && SatisfiesAll(p, b)
  {
    if SatisfiesAll(p, a) && SatisfiesAll(p, b) {
      forall i | 0 <= i < |a + b| ensures Satisfies(p, (a + b)[i]) {
        if i < |a| {
          assert (a + b)[i] == a[i];
        } else {
          assert (a + b)[i] == b[i - |a|];
        }
      }
    }
    if SatisfiesAll(p, a + b) {
      forall i | 0 <= i < |a| ensures Satisfies(p, a[i]) {
        assert (a + b)[i] == a[i];
      }
      forall i | 0 <= i < |b| ensures Satisfies(p, b[i]) {
        assert (a + b)[|a| + i] == b[i];
      }
    }
  }

  /** A condition the handler adds only when its parameter is present. */
  lemma SatisfiesOptional(p: Product, present: bool, c: Condition)
    ensures SatisfiesAll(p, if present then [c] else []) <==> (!present || Satisfies(p, c))
  {
    if present {
      assert [c][0] == c;
    }
  }

  lemma PriceWhereMeans(p: Product, q: Query)
    ensures SatisfiesAll(p, PriceWhere(q)) <==>
              (q.minPrice.None? || p.price >= q.minPrice.value)
              && (q.maxPrice.None? || p.price <= q.maxPrice.value)
  {
    var minP := if q.minPrice.Some? then [PriceAtLeast(q.minPrice.value)] else [];
    var maxP := if q.maxPrice.Some? then [PriceAtMost(q.maxPrice.value)] else [];
    SatisfiesAllConcat(p, minP, maxP);
    SatisfiesOptional(p, q.minPrice.Some?, PriceAtLeast(q.minPrice.GetOr(0)));
    SatisfiesOptional(p, q.maxPrice.Some?, PriceAtMost(q.maxPrice.GetOr(0)));
  }

  lemma StockWhereMeans(p: Product, q: Query)
    ensures SatisfiesAll(p, StockWhere(q)) <==>
              (q.minStock.None? || p.stock >= q.minStock.value)
              && (q.maxStock.None? || p.stock <= q.maxStock.value)
  {
    var minS := if q.minStock.Some? then [StockAtLeast(q.minStock.value)] else [];
    var maxS := if q.maxStock.Some? then [StockAtMost(q.maxStock.value)] else [];
    SatisfiesAllConcat(p, minS, maxS);
    SatisfiesOptional(p, q.minStock.Some?, StockAtLeast(q.minStock.GetOr(0)));
    SatisfiesOptional(p, q.maxStock.Some?, StockAtMost(q.maxStock.GetOr(0)));
  }

  /** The `where` object the handler builds selects exactly the rows the
      parameter-by-parameter filter describes. */
  lemma {:induction false} WhereMeansMatches(p: Product, q: Query)
    ensures SatisfiesAll(p, BuildWhere(q)) <==> Matches(p, q)
  {
    SatisfiesAllConcat(p, NameWhere(q) + CategoryWhere(q) + PriceWhere(q), StockWhere(q));
    SatisfiesAllConcat(p, NameWhere(q) + CategoryWhere(q), PriceWhere(q));
    SatisfiesAllConcat(p, NameWhere(q), CategoryWhere(q));
    SatisfiesOptional(p, q.search.Some?, NameLike(q.search.GetOr("")));
    SatisfiesOptional(p, q.categoryId.Some?, CategoryIs(q.categoryId.GetOr(0)));
    PriceWhereMeans(p, q);
    StockWhereMeans(p, q);
  }

  /** The rows of `rows` the `where` clause keeps, in their order. */
  function Filter(rows: seq<Product>, where: seq<Condition>): (r: seq<Product>)
    ensures |r| <= |rows|
    ensures forall p :: p in r <==> p in rows && SatisfiesAll(p, where)
  {
    if rows == [] then []
    else if SatisfiesAll(rows[0], where) then [rows[0]] + Filter(rows[1..], where)
    else Filter(rows[1..], where)
  }

  /** Code-point order on names, shorter prefix first. */
  predicate LexLe(a: string, b: string)
    decreases |a|
  {
    a == [] || (b != [] && (a[0] < b[0] || (a[0] == b[0] && LexLe(a[1..], b[1..]))))
  }

  lemma {:induction false} LexLeTotal(a: string, b: string)
    ensures LexLe(a, b) || LexLe(b, a)
    decreases |a|
  {
    if a != [] && b != [] && a[0] == b[0] {
      LexLeTotal(a[1..], b[1..]);
    }
  }

  lemma {:induction false} LexLeTransitive(a: string, b: string, c: string)
    requires LexLe(a, b) && LexLe(b, c)
    ensures LexLe(a, c)
    decreases |a|
  {
    if a != [] && b != [] && c != [] && a[0] == b[0] && b[0] == c[0] {
      LexLeTransitive(a[1..], b[1..], c[1..]);
    }
  }

  /** `ORDER BY sortBy order`: may `a` come before `b`? */
  predicate Before(key: SortKey, dir: Direction, a: Product, b: Product) {
    match (key, dir)
    case (CreatedAt, Asc) => a.createdAt <= b.createdAt
    case (CreatedAt, Desc) => a.createdAt >= b.createdAt
    case (Price, Asc) => a.price <= b.price
    case (Price, Desc) => a.price >= b.price
    case (Stock, Asc) => a.stock <= b.stock
    case (Stock, Desc) => a.stock >= b.stock
    case (Name, Asc) => LexLe(a.name, b.name)
    case (Name, Desc) => LexLe(b.name, a.name)
  }

  function Order(key: SortKey, dir: Direction): (Product, Product) -> bool {
    (a: Product, b: Product) => Before(key, dir, a, b)
  }

  /** Every requested ordering ranks every two rows and chains, so sorting
      by it yields a sorted list. */
  lemma OrderIsTotalPreorder(key: SortKey, dir: Direction)
    ensures TotalPreorder(Order(key, dir))
  {
    var le := Order(key, dir);
    forall a, b ensures le(a, b) || le(b, a) {
      LexLeTotal(a.name, b.name);
    }
    forall a, b, c | le(a, b) && le(b, c) ensures le(a, c) {
      if key == Name {
        if dir == Asc {
          LexLeTransitive(a.name, b.name, c.name);
        } else {
          LexLeTransitive(c.name, b.name, a.name);
        }
      }
    }
  }

  /** `Math.ceil(n / d)`. */
  function CeilDiv(n: nat, d: Positive): nat {
    (n + d - 1) / d
  }

  /** `CeilDiv(n, d)` is the least number of `d`-sized pages that holds `n`
      rows: the only `t` with `(t - 1) * d < n <= t * d`. */
  lemma CeilDivIsCeiling(n: nat, d: Positive, t: int)
    ensures (CeilDiv(n, d) - 1) * d < n <= CeilDiv(n, d) * d
    ensures (t - 1) * d < n <= t * d ==> t == CeilDiv(n, d)
  {
    var c := CeilDiv(n, d);
    assert (c - 1) * d < n <= c * d by {
      var k := n + d - 1;
      assert k == c * d + k % d;
    }
  }

  datatype Page = Page(totalItems: nat, totalPages: nat, currentPage: Positive, data: seq<Product>)

  /** The rows the query selects, in the requested order. */
  function Matching(rows: seq<Product>, q: Query): seq<Product> {
    Sort(Filter(rows, BuildWhere(q)), Order(q.sortBy, q.order))
  }

  /** `OFFSET (page - 1) * limit`. */
  function Offset(page: Positive, limit: Positive): nat {
    (page - 1) * limit
  }

  /** `LIMIT limit OFFSET offset`: the rows from position `offset` on, at
      most `limit` of them. */
  function Window<T>(s: seq<T>, offset: nat, limit: Positive): (r: seq<T>)
    ensures |r| <= limit
    ensures offset < |s| <==> r != []
    ensures offset + limit <= |s| ==> |r| == limit
    ensures offset < |s| < offset + limit ==> |r| == |s| - offset
    ensures forall k :: 0 <= k < |r| ==> offset + k < |s| && r[k] == s[offset + k]
  {
    if offset >= |s| then []
    else if offset + limit <= |s| then s[offset..offset + limit]
    else s[offset..]
  }

  /** The page the query asks for, with the count of all selected rows. */
  function ListProducts(rows: seq<Product>, q: Query): Page {
    var matching := Matching(rows, q);
    Page(|matching|, CeilDiv(|matching|, q.limit), q.page, Window(matching, Offset(q.page, q.limit), q.limit))
  }

  /** A window of a sorted sequence is sorted. */
  lemma WindowSorted<T>(s: seq<T>, offset: nat, limit: Positive, le: (T, T) -> bool)
    requires Sorted(s, le)
    ensures Sorted(Window(s, offset, limit), le)
  {
    var r := Window(s, offset, limit);
    forall i, j | 0 <= i < j < |r| ensures le(r[i], r[j]) {
      assert r[i] == s[offset + i] && r[j] == s[offset + j];
    }
  }

  /** The count covers every matching row, and the page count is the
      count divided by `limit`, rounded up. */
  lemma ListProductsCounts(rows: seq<Product>, q: Query)
    ensures var pg := ListProducts(rows, q);
            && pg.currentPage == q.page
            && pg.totalItems == |Filter(rows, BuildWhere(q))|
            && pg.totalPages == CeilDiv(pg.totalItems, q.limit)
            && |pg.data| <= q.limit
  {
    var filtered := Filter(rows, BuildWhere(q));
    var m := Sort(filtered, Order(q.sortBy, q.order));
    assert |m| == |filtered|;
  }

  /** Every row on the page is a row of the table that satisfies every
      supplied filter. */
  lemma {:induction false} ListProductsRowsMatch(rows: seq<Product>, q: Query)
    ensures forall p :: p in ListProducts(rows, q).data ==> p in rows && Matches(p, q)
  {
    var data := ListProducts(rows, q).data;
    var filtered := Filter(rows, BuildWhere(q));
    var matching := Matching(rows, q);
    forall p | p in data ensures p in rows && Matches(p, q) {
      var k :| 0 <= k < |data| && data[k] == p;
      assert p == matching[Offset(q.page, q.limit) + k];
      assert p in multiset(matching);
      assert p in filtered;
      WhereMeansMatches(p, q);
    }
  }

  /** The page is in the requested order. */
  lemma {:induction false} ListProductsSorted(rows: seq<Product>, q: Query)
    ensures Sorted(ListProducts(rows, q).data, Order(q.sortBy, q.order))
  {
    OrderIsTotalPreorder(q.sortBy, q.order);
    WindowSorted(Matching(rows, q), Offset(q.page, q.limit), q.limit, Order(q.sortBy, q.order));
  }

  /** Page `page` is non-empty exactly when `(page - 1) * limit` is below the
      row count, which is exactly when `page` is at most the page count. */
  lemma OffsetBelowIffInRange(n: nat, page: Positive, limit: Positive)
    ensures Offset(page, limit) < n <==> page <= CeilDiv(n, limit)
  {
    var t := CeilDiv(n, limit);
    CeilDivIsCeiling(n, limit, t);
    if page <= t {
      assert (page - 1) * limit <= (t - 1) * limit;
    } else {
      assert (page - 1) * limit >= t * limit;
    }
  }

  /** A page has rows exactly when its number is at most the page count. */
  lemma PageNonEmptyIffInRange(rows: seq<Product>, q: Query)
    ensures var pg := ListProducts(rows, q);
            pg.data != [] <==> q.page <= pg.totalPages
  {
    OffsetBelowIffInRange(|Matching(rows, q)|, q.page, q.limit);
  }

  /** The page that row `i` (counting from 0) of the selection falls on. */
  function PageOf(i: nat, limit: Positive): Positive {
    i / limit + 1
  }

  /** Where on its page row `i` of the selection falls. */
  function SlotOf(i: nat, limit: Positive): nat {
    i % limit
  }

  lemma PageOfIndex(i: nat, limit: Positive)
    ensures Offset(PageOf(i, limit), limit) + SlotOf(i, limit) == i
    ensures SlotOf(i, limit) < limit
  {
  }

  lemma MatchingIgnoresPage(rows: seq<Product>, q: Query, page: Positive)
    ensures Matching(rows, q.(page := page)) == Matching(rows, q)
  {
    var q' := q.(page := page);
    assert BuildWhere(q') == BuildWhere(q);
    assert q'.sortBy == q.sortBy && q'.order == q.order;
  }

  lemma WindowAt<T>(s: seq<T>, offset: nat, limit: Positive, k: nat)
    requires offset + k < |s| && k < limit
    ensures k < |Window(s, offset, limit)| && Window(s, offset, limit)[k] == s[offset + k]
  {
  }

  /** Paging loses no row and repeats none: row `i` of the ordered selection
      is row `i % limit` of page `i / limit + 1`. */
  lemma EveryRowOnItsPage(rows: seq<Product>, q: Query, i: nat)
    requires i < |Matching(rows, q)|
    ensures var pg := ListProducts(rows, q.(page := PageOf(i, q.limit)));
            SlotOf(i, q.limit) < |pg.data| && pg.data[SlotOf(i, q.limit)] == Matching(rows, q)[i]
  {
    var m := Matching(rows, q);
    var page := PageOf(i, q.limit);
    var slot := SlotOf(i, q.limit);
    MatchingIgnoresPage(rows, q, page);
    PageOfIndex(i, q.limit);
    WindowAt(m, Offset(page, q.limit), q.limit, slot);
  }

  /** Five rows priced 50, 120, 150, 180 and 250. */
  predicate PriceRangeRows(rows: seq<Product>) {
    && |rows| == 5
    && rows[0].price == 50 && rows[1].price == 120 && rows[2].price == 150
    && rows[3].price == 180 && rows[4].price == 250
  }

  /** `?minPrice=100&maxPrice=200&sortBy=price&order=ASC&page=1&limit=2`. */
  const PriceRangeQuery := DefaultQuery.(limit := 2, minPrice := Some(100), maxPrice := Some(200), sortBy := Price, order := Asc)

  lemma FilterKeeps(x: Product, rest: seq<Product>, w: seq<Condition>)
    requires SatisfiesAll(x, w)
    ensures Filter([x] + rest, w) == [x] + Filter(rest, w)
  {
    assert ([x] + rest)[1..] == rest;
  }

  lemma FilterDrops(x: Product, rest: seq<Product>, w: seq<Condition>)
    requires !SatisfiesAll(x, w)
    ensures Filter([x] + rest, w) == Filter(rest, w)
  {
    assert ([x] + rest)[1..] == rest;
  }

  lemma ScenarioWhere(rows: seq<Product>)
    requires PriceRangeRows(rows)
    ensures BuildWhere(PriceRangeQuery) == [PriceAtLeast(100), PriceAtMost(200)]
    ensures !SatisfiesAll(rows[0], BuildWhere(PriceRangeQuery)) && !SatisfiesAll(rows[4], BuildWhere(PriceRangeQuery))
    ensures SatisfiesAll(rows[1], BuildWhere(PriceRangeQuery)) && SatisfiesAll(rows[2], BuildWhere(PriceRangeQuery))
    ensures SatisfiesAll(rows[3], BuildWhere(PriceRangeQuery))
  {
    var w := BuildWhere(PriceRangeQuery);
    assert w == [PriceAtLeast(100), PriceAtMost(200)];
    assert !Satisfies(rows[4], w[1]);
    assert !Satisfies(rows[0], w[0]);
  }

  lemma ScenarioFilter(rows: seq<Product>)
    requires PriceRangeRows(rows)
    ensures Filter(rows, BuildWhere(PriceRangeQuery)) == [rows[1], rows[2], rows[3]]
  {
    var w := BuildWhere(PriceRangeQuery);
    ScenarioWhere(rows);
    assert rows == [rows[0]] + ([rows[1]] + ([rows[2]] + ([rows[3]] + ([rows[4]] + []))));
    FilterDrops(rows[4], [], w);
    FilterKeeps(rows[3], [rows[4]] + [], w);
    FilterKeeps(rows[2], [rows[3]] + ([rows[4]] + []), w);
    FilterKeeps(rows[1], [rows[2]] + ([rows[3]] + ([rows[4]] + [])), w);
    FilterDrops(rows[0], [rows[1]] + ([rows[2]] + ([rows[3]] + ([rows[4]] + []))), w);
  }

  lemma ScenarioSort(a: Product, b: Product, c: Product)
    requires a.price <= b.price <= c.price
    ensures Sort([a, b, c], Order(Price, Asc)) == [a, b, c]
  {
    var le := Order(Price, Asc);
    assert [a, b, c][1..] == [b, c];
    assert [b, c][1..] == [c];
    assert Sort([c], le) == [c];
    assert Sort([b, c], le) == Insert(b, [c], le) == [b, c];
    assert Insert(a, [b, c], le) == [a, b, c];
  }

  /** Three of the five rows fall in the price range, so there are two pages;
      the first holds the two cheapest of them, cheapest first. */
  lemma PriceRangeScenario(rows: seq<Product>)
    requires PriceRangeRows(rows)
    ensures var pg := ListProducts(rows, PriceRangeQuery);
            pg.totalItems == 3 && pg.totalPages == 2 && pg.data == [rows[1], rows[2]]
  {
    ScenarioFilter(rows);
    ScenarioSort(rows[1], rows[2], rows[3]);
    var m := Matching(rows, PriceRangeQuery);
    assert m == [rows[1], rows[2], rows[3]];
    assert Offset(1, 2) == 0;
    assert Window(m, 0, 2) == m[0..2];
  }
}
