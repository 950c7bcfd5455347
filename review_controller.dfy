/** The review endpoints of the backend: create, update (a nullish merge),
    delete, and list (optionally for one product, newest first). The
    `reviews` table is a map from the auto-incremented id to the row.

    Two defects of the handlers are modelled as written, next to the
    behaviour they were evidently meant to have:
    - the create handler never passes the author's `clerkId`, which the
      table requires, so the insert always fails;
    - the update and delete routes name their parameter `reviewId` while
      the handlers read `id`, so the handlers never see an id. */
module ReviewController {
  import opened Common
  import opened Sorting
  import ProductModel

  datatype Review = Review(
    reviewId: int,
    clerkId: string,
    productId: string,
    rating: int,
    comment: Option<string>,
    createdAt: int)

  /** The rating a review gets when the request leaves it out. */
  const DefaultRating := 3

  /** The name under which the update and delete routes declare the id. */
  const RouteParamName := "reviewId"

  /** The name under which the update and delete handlers read the id. */
  const HandlerParamName := "id"

  /** `req.params[read]` for a route that declares the parameter `declared`
      and was called with `value` in its place: present only when the names
      agree. */
  function ParamFromRoute<T>(declared: string, read: string, value: T): (r: Option<T>)
    ensures r.Some? <==> declared == read
    ensures r.Some? ==> r.value == value
  {
    if declared == read then Some(value) else None
  }

  /** As written, the handlers never receive the id from the URL, whatever
      it is. */
  lemma ReviewIdNeverReachesHandler<T>(value: T)
    ensures ParamFromRoute(RouteParamName, HandlerParamName, value) == None
  {
  }

  /** With the handler reading the name the route declares, the id from the
      URL arrives unchanged. */
  lemma ReviewIdReachesHandlerWhenNamesAgree<T>(value: T)
    ensures ParamFromRoute(RouteParamName, RouteParamName, value) == Some(value)
  {
  }

  /** The reviews of one product (of every product when the filter is
      absent or empty), in table order. */
  function ReviewsOf(rows: seq<Review>, productId: Option<string>): (r: seq<Review>)
    ensures forall x :: x in r <==> x in rows && (productId.None? || productId.value == "" || x.productId == productId.value)
    ensures multiset(r) <= multiset(rows)
  {
    if rows == [] then []
    else
      var rest := ReviewsOf(rows[1..], productId);
      assert rows == [rows[0]] + rows[1..];
      if productId.None? || productId.value == "" || rows[0].productId == productId.value then [rows[0]] + rest
      else rest
  }

  /** `ORDER BY createdAt DESC`. */
  function NewestFirst(): (Review, Review) -> bool {
    (a: Review, b: Review) => a.createdAt >= b.createdAt
  }

  lemma NewestFirstIsTotalPreorder()
    ensures TotalPreorder(NewestFirst())
  {
  }

  /** GET /reviews over the rows in the order the table hands them out. */
  function ListReviews(rows: seq<Review>, productId: Option<string>): seq<Review> {
    Sort(ReviewsOf(rows, productId), NewestFirst())
  }

  /** The listing holds exactly the reviews of the requested product (all
      of them without a filter), each as often as in the table, newest
      first. */
  lemma {:induction false} ListReviewsMeetsQuery(rows: seq<Review>, productId: Option<string>)
    ensures var r := ListReviews(rows, productId);
            && multiset(r) <= multiset(rows)
            && (forall x :: x in r <==> x in rows && (productId.None? || productId.value == "" || x.productId == productId.value))
            && (forall i, j :: 0 <= i < j < |r| ==> r[i].createdAt >= r[j].createdAt)
  {
    var r := ListReviews(rows, productId);
    var kept := ReviewsOf(rows, productId);
    NewestFirstIsTotalPreorder();
    assert Sorted(r, NewestFirst());
    assert multiset(r) == multiset(kept);
    forall x ensures x in r <==> x in kept {
      assert x in r <==> x in multiset(r);
      assert x in kept <==> x in multiset(kept);
    }
  }

  /** A filter on the product of no review yields an empty list. */
  lemma ListReviewsOfUnknownProduct(rows: seq<Review>, productId: string)
    requires productId != "" && forall x :: x in rows ==> x.productId != productId
    ensures ListReviews(rows, Some(productId)) == []
  {
    var kept := ReviewsOf(rows, Some(productId));
    if kept != [] {
      assert kept[0] in kept;
    }
  }

  /** Looking up every key of a table whose rows carry their own key as id
      gives exactly the rows of the table. */
  lemma {:induction false} RowsOfAllKeys(rows: map<int, Review>, ids: seq<int>)
    requires forall id :: id in rows ==> rows[id].reviewId == id
    requires forall k :: 0 <= k < |ids| ==> ids[k] in rows
    requires forall id :: id in rows ==> id in ids
    ensures forall x :: x in RowsOf(rows, ids) <==> x.reviewId in rows && rows[x.reviewId] == x
  {
    var r := RowsOf(rows, ids);
    forall x ensures x in r <==> x.reviewId in rows && rows[x.reviewId] == x {
      if x in r {
        var k :| 0 <= k < |r| && r[k] == x;
        assert x == rows[ids[k]] && rows[ids[k]].reviewId == ids[k];
      }
      if x.reviewId in rows && rows[x.reviewId] == x {
        var k :| 0 <= k < |ids| && ids[k] == x.reviewId;
        assert r[k] == x;
      }
    }
  }

  /** An element at two positions of a sequence is counted at least twice. */
  lemma TwiceCounted<T>(s: seq<T>, i: nat, j: nat)
    requires i < j < |s| && s[i] == s[j]
    ensures multiset(s)[s[i]] >= 2
  {
    assert s == s[..j] + s[j..];
    assert s[i] in s[..j];
    assert s[j..][0] == s[j];
  }

  /** In a sequence without repeats, every element is counted at most once. */
  lemma {:induction false} CountedAtMostOnce<T>(s: seq<T>, x: T)
    requires forall i, j :: 0 <= i < j < |s| ==> s[i] != s[j]
    ensures multiset(s)[x] <= 1
  {
    if s != [] {
      CountedAtMostOnce(s[1..], x);
      assert s == [s[0]] + s[1..];
      if s[0] == x {
        assert x !in s[1..];
      }
    }
  }

  /** Whatever takes its elements from a sequence without repeats, no more
      often than they occur there, has no repeats either. */
  lemma NoRepeatsInSubMultiset<T>(r: seq<T>, s: seq<T>)
    requires multiset(r) <= multiset(s)
    requires forall i, j :: 0 <= i < j < |s| ==> s[i] != s[j]
    ensures forall i, j :: 0 <= i < j < |r| ==> r[i] != r[j]
  {
    forall i, j | 0 <= i < j < |r| ensures r[i] != r[j] {
      if r[i] == r[j] {
        TwiceCounted(r, i, j);
        CountedAtMostOnce(s, r[i]);
        assert false;
      }
    }
  }

  /** The listing over a scan that visits every key once never shows a review
      twice: its reviews carry distinct ids. */
  lemma {:induction false} ListReviewsNoRepeats(rows: map<int, Review>, ids: seq<int>, productId: Option<string>)
    requires forall id :: id in rows ==> rows[id].reviewId == id
    requires forall k :: 0 <= k < |ids| ==> ids[k] in rows
    requires forall i, j :: 0 <= i < j < |ids| ==> ids[i] != ids[j]
    ensures var r := ListReviews(RowsOf(rows, ids), productId);
            forall i, j :: 0 <= i < j < |r| ==> r[i].reviewId != r[j].reviewId
  {
    var listed := RowsOf(rows, ids);
    var r := ListReviews(listed, productId);
    forall i, j | 0 <= i < j < |listed| ensures listed[i] != listed[j] {
      assert listed[i].reviewId == ids[i] && listed[j].reviewId == ids[j];
    }
    ListReviewsMeetsQuery(listed, productId);
    NoRepeatsInSubMultiset(r, listed);
    RowsOfAllKeysOnly(rows, ids);
    forall i, j | 0 <= i < j < |r| ensures r[i].reviewId != r[j].reviewId {
      assert r[i] in r && r[j] in r;
      assert r[i] in listed && r[j] in listed;
      assert rows[r[i].reviewId] == r[i] && rows[r[j].reviewId] == r[j];
    }
  }

  /** The listing over a scan that visits every key of the table once: the
      stored reviews of the requested product, newest first, none twice. */
  lemma {:induction false} ListingOfScan(rows: map<int, Review>, ids: seq<int>, productId: Option<string>)
    requires forall id :: id in rows ==> rows[id].reviewId == id
    requires forall k :: 0 <= k < |ids| ==> ids[k] in rows
    requires forall id :: id in rows ==> id in ids
    requires forall i, j :: 0 <= i < j < |ids| ==> ids[i] != ids[j]
    ensures var r := ListReviews(RowsOf(rows, ids), productId);
            && (forall x :: x in r <==>
                  x.reviewId in rows && rows[x.reviewId] == x
                  && (productId.None? || productId.value == "" || x.productId == productId.value))
            && (forall i, j :: 0 <= i < j < |r| ==> r[i].createdAt >= r[j].createdAt)
            && (forall i, j :: 0 <= i < j < |r| ==> r[i].reviewId != r[j].reviewId)
  {
    RowsOfAllKeys(rows, ids);
    ListReviewsMeetsQuery(RowsOf(rows, ids), productId);
    ListReviewsNoRepeats(rows, ids, productId);
  }

  /** Every row of a lookup is stored under its own id. */
  lemma RowsOfAllKeysOnly(rows: map<int, Review>, ids: seq<int>)
    requires forall id :: id in rows ==> rows[id].reviewId == id
    requires forall k :: 0 <= k < |ids| ==> ids[k] in rows
    ensures forall x :: x in RowsOf(rows, ids) ==> x.reviewId in rows && rows[x.reviewId] == x
  {
    var r := RowsOf(rows, ids);
    forall x | x in r ensures x.reviewId in rows && rows[x.reviewId] == x {
      var k :| 0 <= k < |r| && r[k] == x;
      assert x == rows[ids[k]] && rows[ids[k]].reviewId == ids[k];
    }
  }

  class ReviewTable {
    var rows: map<int, Review>
    /** The value the auto-increment column hands out next. */
    var nextId: int

    ghost predicate Valid()
      reads this
    {
      && nextId >= 1
      && forall id :: id in rows ==> rows[id].reviewId == id && 1 <= id < nextId
    }

    constructor ()
      ensures Valid() && rows == map[] && nextId == 1
    {
      rows := map[];
      nextId := 1;
    }

    /** `Review.create`: the table refuses a row without an author (500);
        otherwise the row gets the next id, and rating 3 when none is
        given. */
    method InsertReview(clerkId: Option<string>, productId: string, rating: Option<int>,
                        comment: Option<string>, now: int)
      returns (status: int, created: Option<Review>)
      requires Valid()
      modifies this
      ensures Valid()
      ensures clerkId.None? ==> status == 500 && created == None && rows == old(rows) && nextId == old(nextId)
      ensures clerkId.Some? ==>
                && status == 201
                && created == Some(Review(old(nextId), clerkId.value, productId,
                                          rating.GetOr(DefaultRating), comment, now))
                && rows == old(rows)[old(nextId) := created.value]
                && nextId == old(nextId) + 1
    {
      if clerkId.None? {
        return 500, None;
      }
      var r := Review(nextId, clerkId.value, productId, rating.GetOr(DefaultRating), comment, now);
      rows := rows[nextId := r];
      nextId := nextId + 1;
      return 201, Some(r);
    }

    /** POST /reviews as written: an unknown or missing product answers 404;
        otherwise the insert goes out without an author and fails, so no
        review is ever created. */
    method CreateReviewAsWritten(products: map<string, ProductModel.Product>, productId: Option<string>,
                                 rating: Option<int>, comment: Option<string>, now: int)
      returns (status: int)
      requires Valid()
      modifies this
      ensures Valid()
      ensures productId.None? || productId.value !in products ==> status == 404
      ensures productId.Some? && productId.value in products ==> status == 500
      ensures rows == old(rows) && nextId == old(nextId)
    {
      if productId.None? || productId.value !in products {
        return 404;
      }
      var created;
      status, created := InsertReview(None, productId.value, rating, comment, now);
    }

    /** POST /reviews with the author's `clerkId` passed on: an unknown or
        missing product answers 404 and creates nothing; otherwise exactly
        one review is added, for that product, with the given rating (3 when
        absent) and comment. */
    method CreateReview(products: map<string, ProductModel.Product>, clerkId: string,
                        productId: Option<string>, rating: Option<int>, comment: Option<string>, now: int)
      returns (status: int, created: Option<Review>)
      requires Valid()
      modifies this
      ensures Valid()
      ensures productId.None? || productId.value !in products ==>
                status == 404 && created == None && rows == old(rows) && nextId == old(nextId)
      ensures productId.Some? && productId.value in products ==>
                && status == 201
                && created == Some(Review(old(nextId), clerkId, productId.value,
                                          rating.GetOr(DefaultRating), comment, now))
                && rows == old(rows)[old(nextId) := created.value]
                && nextId == old(nextId) + 1
    {
      if productId.None? || productId.value !in products {
        return 404, None;
      }
      status, created := InsertReview(Some(clerkId), productId.value, rating, comment, now);
    }

    /** PUT /reviews/:id. A missing or unknown id answers 404. Otherwise
        rating and comment are replaced by any value that is not null or
        undefined, so a rating of 0 is written. */
    method UpdateReview(id: Option<int>, rating: Option<int>, comment: Option<string>)
      returns (status: int, updated: Option<Review>)
      requires Valid()
      modifies this
      ensures Valid() && nextId == old(nextId)
      ensures id.None? || id.value !in old(rows) ==> status == 404 && updated == None && rows == old(rows)
      ensures id.Some? && id.value in old(rows) ==>
                var r := old(rows)[id.value];
                && status == 200
                && updated == Some(r.(rating := rating.GetOr(r.rating),
                                      comment := if comment.Some? then comment else r.comment))
                && rows == old(rows)[id.value := updated.value]
    {
      if id.None? || id.value !in rows {
        return 404, None;
      }
      var r := rows[id.value];
      var u := r.(rating := rating.GetOr(r.rating), comment := if comment.Some? then comment else r.comment);
      rows := rows[id.value := u];
      return 200, Some(u);
    }

    /** DELETE /reviews/:id: removes exactly that review. */
    method DeleteReview(id: Option<int>) returns (status: int)
      requires Valid()
      modifies this
      ensures Valid() && nextId == old(nextId)
      ensures id.None? || id.value !in old(rows) ==> status == 404 && rows == old(rows)
      ensures id.Some? && id.value in old(rows) ==> status == 200 && rows == old(rows) - {id.value}
    {
      if id.None? || id.value !in rows {
        return 404;
      }
      rows := rows - {id.value};
      return 200;
    }

    /** The update and delete handlers behind the routes as declared: the id
        in the URL never reaches them, so both answer 404 and change
        nothing, whatever review the URL names. */
    method UpdateReviewByRoute(urlId: int, rating: Option<int>, comment: Option<string>)
      returns (status: int)
      requires Valid()
      modifies this
      ensures Valid() && status == 404 && rows == old(rows) && nextId == old(nextId)
    {
      ReviewIdNeverReachesHandler(urlId);
      var updated;
      status, updated := UpdateReview(ParamFromRoute(RouteParamName, HandlerParamName, urlId), rating, comment);
    }

    method DeleteReviewByRoute(urlId: int) returns (status: int)
      requires Valid()
      modifies this
      ensures Valid() && status == 404 && rows == old(rows) && nextId == old(nextId)
    {
      ReviewIdNeverReachesHandler(urlId);
      status := DeleteReview(ParamFromRoute(RouteParamName, HandlerParamName, urlId));
    }

    /** GET /reviews: the reviews of the requested product (all of them
        without a filter), newest first. */
    method GetAllReviews(productId: Option<string>) returns (status: int, reviews: seq<Review>)
      requires Valid()
      ensures status == 200
      ensures forall x :: x in reviews <==>
                x.reviewId in rows && rows[x.reviewId] == x
                && (productId.None? || productId.value == "" || x.productId == productId.value)
      ensures forall i, j :: 0 <= i < j < |reviews| ==> reviews[i].createdAt >= reviews[j].createdAt
      ensures forall i, j :: 0 <= i < j < |reviews| ==> reviews[i].reviewId != reviews[j].reviewId
    {
      var ids := EnumerateKeys(rows.Keys);
      assert forall k :: 0 <= k < |ids| ==> ids[k] in ids;
      ListingOfScan(rows, ids, productId);
      reviews := ListReviews(RowsOf(rows, ids), productId);
      status := 200;
    }
  }
}
