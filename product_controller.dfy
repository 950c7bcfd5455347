/** The product endpoints of the backend: create (with its ordered checks),
    update (a field-by-field merge that keeps the old value of a field the
    request leaves out), delete, look up by id, and the paged listing. The
    `products` table is a map from the product's UUID to the row. */
module ProductController {
  import opened Common
  import opened Sorting
  import opened ProductModel
  import opened ProductQuery
  import CategoryController

  /** The multipart form fields, already parsed. Every field arrives as
      text, so a present field is truthy unless it is the empty string:
      `None` for `price` and `categoryId` covers both absent and empty, while
      `Some("")` is a distinct, falsy name or description. */
  datatype ProductForm = ProductForm(
    name: Option<string>,
    description: Option<string>,
    price: Option<int>,
    stock: Option<int>,
    categoryId: Option<int>)

  const EmptyForm := ProductForm(None, None, None, None, None)

  predicate Truthy(s: Option<string>) {
    s.Some? && s.value != ""
  }

  /** The row `updateProduct` writes: name, price and category are replaced
      only by a truthy value, description and stock by any value that is
      present, and the image only by an uploaded file. */
  function Merge(p: Product, form: ProductForm, file: Option<string>): (r: Product)
    ensures r.productId == p.productId && r.createdAt == p.createdAt
    ensures r.name == if Truthy(form.name) then form.name.value else p.name
    ensures r.description == if form.description.Some? then form.description.value else p.description
    ensures r.price == if form.price.Some? then form.price.value else p.price
    ensures r.imageUrl == if file.Some? then file else p.imageUrl
    ensures r.stock == if form.stock.Some? then form.stock.value else p.stock
    ensures r.categoryId == if form.categoryId.Some? then form.categoryId.value else p.categoryId
  {
    p.(name := if Truthy(form.name) then form.name.value else p.name,
       description := form.description.GetOr(p.description),
       price := form.price.GetOr(p.price),
       imageUrl := if file.Some? then file else p.imageUrl,
       stock := form.stock.GetOr(p.stock),
       categoryId := form.categoryId.GetOr(p.categoryId))
  }

  /** An update with an empty body and no file leaves the row as it is. */
  lemma EmptyUpdateIsNoOp(p: Product)
    ensures Merge(p, EmptyForm, None) == p
  {
  }

  /** Sending the same update twice gives the row one update gives. */
  lemma MergeIdempotent(p: Product, form: ProductForm, file: Option<string>)
    ensures Merge(Merge(p, form, file), form, file) == Merge(p, form, file)
  {
  }

  /** A falsy name (absent or empty) never blanks the stored name. */
  lemma MergeKeepsNameUnlessTruthy(p: Product, form: ProductForm, file: Option<string>)
    requires !Truthy(form.name)
    ensures Merge(p, form, file).name == p.name
  {
  }

  predicate NameTakenByOther(rows: map<string, Product>, id: string, name: string) {
    exists other :: other in rows && other != id && rows[other].name == name
  }

  /** The rows whose fields satisfy every supplied filter of the listing. */
  function MatchingIds(rows: map<string, Product>, q: Query): set<string> {
    set id | id in rows && Matches(rows[id], q)
  }

  predicate Distinct<T(==)>(s: seq<T>) {
    forall i, j :: 0 <= i < j < |s| ==> s[i] != s[j]
  }

  /** The keys of `ids` whose row passes the `where` clause. */
  function KeptIds(rows: map<string, Product>, ids: seq<string>, where: seq<Condition>): set<string>
    requires forall k :: 0 <= k < |ids| ==> ids[k] in rows
  {
    set k | 0 <= k < |ids| && SatisfiesAll(rows[ids[k]], where) :: ids[k]
  }

  lemma KeptIdsStep(rows: map<string, Product>, ids: seq<string>, where: seq<Condition>)
    requires ids != [] && forall k :: 0 <= k < |ids| ==> ids[k] in rows
    ensures KeptIds(rows, ids, where)
            == KeptIds(rows, ids[1..], where) + (if SatisfiesAll(rows[ids[0]], where) then {ids[0]} else {})
  {
    var rest := ids[1..];
    forall x ensures x in KeptIds(rows, ids, where) <==>
                     x in KeptIds(rows, rest, where) || (SatisfiesAll(rows[ids[0]], where) && x == ids[0])
    {
      if x in KeptIds(rows, ids, where) {
        var k :| 0 <= k < |ids| && SatisfiesAll(rows[ids[k]], where) && ids[k] == x;
        if k > 0 {
          assert rest[k - 1] == x;
        }
      }
      if x in KeptIds(rows, rest, where) {
        var k :| 0 <= k < |rest| && SatisfiesAll(rows[rest[k]], where) && rest[k] == x;
        assert ids[k + 1] == x;
      }
    }
  }

  lemma FilterStep(rows: map<string, Product>, ids: seq<string>, where: seq<Condition>)
    requires ids != [] && forall k :: 0 <= k < |ids| ==> ids[k] in rows
    ensures |Filter(RowsOf(rows, ids), where)|
            == |Filter(RowsOf(rows, ids[1..]), where)| + (if SatisfiesAll(rows[ids[0]], where) then 1 else 0)
  {
    var listed := RowsOf(rows, ids);
    assert listed[0] == rows[ids[0]];
    assert listed[1..] == RowsOf(rows, ids[1..]);
  }

  /** Filtering the rows of a list of distinct keys keeps one row per key
      whose row passes the filter. */
  lemma {:induction false} FilterCount(rows: map<string, Product>, ids: seq<string>, where: seq<Condition>)
    requires forall k :: 0 <= k < |ids| ==> ids[k] in rows
    requires Distinct(ids)
    ensures |Filter(RowsOf(rows, ids), where)| == |KeptIds(rows, ids, where)|
  {
    if ids != [] {
      var rest := ids[1..];
      FilterCount(rows, rest, where);
      FilterStep(rows, ids, where);
      KeptIdsStep(rows, ids, where);
      assert ids[0] !in KeptIds(rows, rest, where);
    } else {
      assert KeptIds(rows, ids, where) == {};
    }
  }

  /** Over an enumeration of all the table's keys, the listing's count is the
      number of rows that satisfy every supplied filter. */
  lemma CountOfEnumeration(rows: map<string, Product>, ids: seq<string>, q: Query)
    requires forall id :: id in rows <==> id in ids
    requires Distinct(ids)
    ensures forall k :: 0 <= k < |ids| ==> ids[k] in rows
    ensures ListProducts(RowsOf(rows, ids), q).totalItems == |MatchingIds(rows, q)|
  {
    assert forall k :: 0 <= k < |ids| ==> ids[k] in ids;
    FilterCount(rows, ids, BuildWhere(q));
    var viaWhere := KeptIds(rows, ids, BuildWhere(q));
    forall id ensures id in viaWhere <==> id in MatchingIds(rows, q) {
      if id in rows {
        WhereMeansMatches(rows[id], q);
        if id in MatchingIds(rows, q) {
          var k :| 0 <= k < |ids| && ids[k] == id;
        }
      }
    }
    assert viaWhere == MatchingIds(rows, q);
    ListProductsCounts(RowsOf(rows, ids), q);
  }

  class ProductTable {
    var rows: map<string, Product>

    /** Rows are keyed by their own id and names are unique. */
    ghost predicate Valid()
      reads this
    {
      && (forall id :: id in rows ==> rows[id].productId == id)
      && (forall a, b :: a in rows && b in rows && rows[a].name == rows[b].name ==> a == b)
    }

    constructor ()
      ensures Valid() && rows == map[]
    {
      rows := map[];
    }

    /** POST /products. The checks run in this order, and each refusal
        leaves the table unchanged: a falsy name or a missing price or
        category (400), an unknown category (404), a taken name (409). The
        new row's id is `freshId`, the UUID the table generates; a clash with
        an existing id fails the insert (500). The description defaults to
        "", the stock to 0, the image to none. */
    method CreateProduct(form: ProductForm, file: Option<string>, freshId: string, now: int,
                         categories: map<int, CategoryController.Category>)
      returns (status: int, created: Option<Product>)
      requires Valid()
      modifies this
      ensures Valid()
      ensures status != 201 ==> created == None && rows == old(rows)
      ensures !Truthy(form.name) || form.price.None? || form.categoryId.None? ==> status == 400
      ensures Truthy(form.name) && form.price.Some? && form.categoryId.Some? ==>
                if form.categoryId.value !in categories then status == 404
                else if exists id :: id in old(rows) && old(rows)[id].name == form.name.value then status == 409
                else if freshId in old(rows) then status == 500
                else
                  && status == 201
                  && created == Some(Product(freshId, form.name.value, form.description.GetOr(""),
                                             form.price.value, file, form.stock.GetOr(0),
                                             form.categoryId.value, now))
                  && rows == old(rows)[freshId := created.value]
    {
      if !Truthy(form.name) || form.price.None? || form.categoryId.None? {
        return 400, None;
      }
      if form.categoryId.value !in categories {
        return 404, None;
      }
      if exists id :: id in rows && rows[id].name == form.name.value {
        return 409, None;
      }
      if freshId in rows {
        return 500, None;
      }
      var p := Product(freshId, form.name.value, form.description.GetOr(""), form.price.value,
                       file, form.stock.GetOr(0), form.categoryId.value, now);
      rows := rows[freshId := p];
      return 201, Some(p);
    }

    /** PUT /products/:productId. An unknown id answers 404. The merged row
        is written unless its name belongs to another row or it moves the
        product to a category that does not exist; either makes the write
        fail with 500. */
    method UpdateProduct(id: string, form: ProductForm, file: Option<string>,
                         categories: map<int, CategoryController.Category>)
      returns (status: int, updated: Option<Product>)
      requires Valid()
      modifies this
      ensures Valid()
      ensures status != 200 ==> updated == None && rows == old(rows)
      ensures id !in old(rows) ==> status == 404
      ensures id in old(rows) ==>
                var m := Merge(old(rows)[id], form, file);
                if NameTakenByOther(old(rows), id, m.name)
                   || (m.categoryId != old(rows)[id].categoryId && m.categoryId !in categories)
                then status == 500
                else status == 200 && updated == Some(m) && rows == old(rows)[id := m]
    {
      if id !in rows {
        return 404, None;
      }
      var m := Merge(rows[id], form, file);
      if NameTakenByOther(rows, id, m.name)
         || (m.categoryId != rows[id].categoryId && m.categoryId !in categories) {
        return 500, None;
      }
      rows := rows[id := m];
      return 200, Some(m);
    }

    /** DELETE /products/:productId: removes exactly that row. */
    method DeleteProduct(id: string) returns (status: int)
      requires Valid()
      modifies this
      ensures Valid()
      ensures id !in old(rows) ==> status == 404 && rows == old(rows)
      ensures id in old(rows) ==> status == 200 && rows == old(rows) - {id}
    {
      if id !in rows {
        return 404;
      }
      rows := rows - {id};
      return 200;
    }

    /** GET /products/:productId. */
    method GetProductById(id: string) returns (status: int, product: Option<Product>)
      requires Valid()
      ensures status == 404 <==> id !in rows
      ensures status != 404 ==> status == 200
      ensures product.Some? <==> id in rows
      ensures product.Some? ==> product.value == rows[id] && product.value.productId == id
    {
      if id !in rows {
        return 404, None;
      }
      return 200, Some(rows[id]);
    }

    /** GET /products: the listing over the rows in the order the table
        hands them out, `ids` being that scan order (every key once). The
        page is the LIMIT/OFFSET window of the ordered selection of that
        scan; the count is the number of rows satisfying every supplied
        filter; the page holds at most `limit` of them, each from the table
        and satisfying every filter, in the requested order. */
    method GetAllProducts(q: Query) returns (status: int, page: Page, ghost ids: seq<string>)
      requires Valid()
      ensures status == 200
      ensures |ids| == |rows| && Distinct(ids)
      ensures forall id :: id in ids <==> id in rows
      ensures forall k :: 0 <= k < |ids| ==> ids[k] in rows
      ensures page == ListProducts(RowsOf(rows, ids), q)
      ensures page.currentPage == q.page
      ensures page.totalItems == |MatchingIds(rows, q)|
      ensures page.totalPages == CeilDiv(page.totalItems, q.limit)
      ensures |page.data| <= q.limit
      ensures forall p :: p in page.data ==> p.productId in rows && rows[p.productId] == p && Matches(p, q)
      ensures Sorted(page.data, Order(q.sortBy, q.order))
      ensures page.data != [] <==> q.page <= page.totalPages
    {
      var scan := EnumerateKeys(rows.Keys);
      ids := scan;
      CountOfEnumeration(rows, scan, q);
      var listed := RowsOf(rows, scan);
      page := ListProducts(listed, q);
      ListProductsCounts(listed, q);
      ListProductsRowsMatch(listed, q);
      ListProductsSorted(listed, q);
      PageNonEmptyIffInRange(listed, q);
      forall p | p in page.data ensures p.productId in rows && rows[p.productId] == p {
        assert p in listed;
        var k :| 0 <= k < |listed| && listed[k] == p;
        assert p == rows[scan[k]];
      }
      status := 200;
    }
  }
}
