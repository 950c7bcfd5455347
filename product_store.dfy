/** The client-side cache of products behind the admin pages: the list, a
    loading flag and the last error. Every action calls the API first and
    changes the list only when the call succeeds. */
module ProductStore {
  import opened Common
  import opened ListOps
  import opened ClientApi
  import ProductModel

  type Product = ProductModel.Product

  function IdOf(p: Product): string {
    p.productId
  }

  /** The list after a successful update: every entry with the id becomes
      the product the server returned. */
  function Replaced(s: seq<Product>, id: string, updated: Product): (r: seq<Product>)
    ensures |r| == |s|
    ensures forall i :: 0 <= i < |s| ==> r[i] == if s[i].productId == id then updated else s[i]
  {
    MapWhereId(s, id, IdOf, _ => updated)
  }

  /** The list after a successful delete. */
  function Removed(s: seq<Product>, id: string): (r: seq<Product>)
    ensures forall x :: x in r <==> x in s && x.productId != id
  {
    RemoveWhereId(s, id, IdOf)
  }

  /** Deleting a product that was just appended, under an id no earlier entry
      carries, gives back the list as it was. */
  lemma CreateThenDeleteRestores(s: seq<Product>, p: Product)
    requires forall x :: x in s ==> x.productId != p.productId
    ensures Removed(s + [p], p.productId) == s
  {
    RemoveWhereIdConcat(s, [p], p.productId, IdOf);
    RemoveAbsentId(s, p.productId, IdOf);
    assert RemoveWhereId([p], p.productId, IdOf) == [];
  }

  class ProductCache {
    var products: seq<Product>
    var loading: bool
    var error: Option<string>

    constructor ()
      ensures products == [] && !loading && error == None
    {
      products := [];
      loading := false;
      error := None;
    }

    /** The first half of a fetch: loading on, error cleared. */
    method BeginFetch()
      modifies this
      ensures loading && error == None && products == old(products)
    {
      loading := true;
      error := None;
    }

    /** The second half of a fetch: the page's `data` replaces the cache (an
        empty list when the response has none), or the error is recorded and
        the cache kept; loading ends either way. */
    method EndFetch(outcome: Outcome<Option<seq<Product>>>)
      modifies this
      ensures !loading
      ensures outcome.Ok? ==> products == outcome.value.GetOr([]) && error == old(error)
      ensures outcome.Failed? ==>
                products == old(products)
                && error == Some(ErrorText(outcome.message, "Failed to fetch products"))
    {
      match outcome {
        case Ok(data) =>
          products := data.GetOr([]);
        case Failed(message) =>
          error := Some(ErrorText(message, "Failed to fetch products"));
      }
      loading := false;
    }

    method FetchProducts(outcome: Outcome<Option<seq<Product>>>)
      modifies this
      ensures !loading
      ensures outcome.Ok? ==> products == outcome.value.GetOr([]) && error == None
      ensures outcome.Failed? ==>
                products == old(products)
                && error == Some(ErrorText(outcome.message, "Failed to fetch products"))
    {
      BeginFetch();
      EndFetch(outcome);
    }

    /** Records a failed call: the list and the loading flag stay. */
    method Fail(message: string, fallback: string) returns (success: bool, err: Option<string>)
      modifies this
      ensures !success && err == Some(ErrorText(message, fallback)) && error == err
      ensures products == old(products) && loading == old(loading)
    {
      error := Some(ErrorText(message, fallback));
      return false, error;
    }

    /** On success the new product goes at the end, the earlier entries keep
        their order and the error is cleared. */
    method CreateProduct(outcome: Outcome<Product>) returns (success: bool, err: Option<string>)
      modifies this
      ensures loading == old(loading)
      ensures success <==> outcome.Ok?
      ensures outcome.Ok? ==>
                products == old(products) + [outcome.value] && error == None && err == None
      ensures outcome.Failed? ==>
                products == old(products)
                && err == Some(ErrorText(outcome.message, "Failed to create product")) && error == err
    {
      match outcome {
        case Ok(p) =>
          products := products + [p];
          error := None;
          return true, None;
        case Failed(message) =>
          success, err := Fail(message, "Failed to create product");
      }
    }

    method UpdateProduct(id: string, outcome: Outcome<Product>) returns (success: bool, err: Option<string>)
      modifies this
      ensures loading == old(loading)
      ensures success <==> outcome.Ok?
      ensures outcome.Ok? ==>
                products == Replaced(old(products), id, outcome.value) && error == None && err == None
      ensures outcome.Failed? ==>
                products == old(products)
                && err == Some(ErrorText(outcome.message, "Failed to update product")) && error == err
    {
      match outcome {
        case Ok(p) =>
          products := Replaced(products, id, p);
          error := None;
          return true, None;
        case Failed(message) =>
          success, err := Fail(message, "Failed to update product");
      }
    }

    method DeleteProduct(id: string, outcome: Outcome<()>) returns (success: bool, err: Option<string>)
      modifies this
      ensures loading == old(loading)
      ensures success <==> outcome.Ok?
      ensures outcome.Ok? ==>
                products == Removed(old(products), id) && error == None && err == None
      ensures outcome.Failed? ==>
                products == old(products)
                && err == Some(ErrorText(outcome.message, "Failed to delete product")) && error == err
    {
      match outcome {
        case Ok(_) =>
          products := Removed(products, id);
          error := None;
          return true, None;
        case Failed(message) =>
          success, err := Fail(message, "Failed to delete product");
      }
    }

    method SetError(e: Option<string>)
      modifies this
      ensures error == e && products == old(products) && loading == old(loading)
    {
      error := e;
    }

    method ClearError()
      modifies this
      ensures error == None && products == old(products) && loading == old(loading)
    {
      error := None;
    }
  }
}
