/** The client-side cache of categories: the list the admin pages show, a
    loading flag and the last error. Every action calls the API first and
    changes the list only when the call succeeds. */
module CategoryStore {
  import opened Common
  import opened ListOps
  import opened ClientApi
  import CategoryController

  type Category = CategoryController.Category

  /** The number of categories the homepage may show; the store checks it
      before asking the server. */
  const MaxActive := 4

  const CapMessage := "Maximum 4 active categories allowed"

  function IdOf(c: Category): int {
    c.categoryId
  }

  /** The number of cached entries marked for the homepage. */
  function ActiveCount(s: seq<Category>): (n: nat)
    ensures n <= |s|
  {
    if s == [] then 0 else (if s[0].isActiveOnHomepage then 1 else 0) + ActiveCount(s[1..])
  }

  predicate DistinctIds(s: seq<Category>) {
    forall i, j :: 0 <= i < j < |s| ==> s[i].categoryId != s[j].categoryId
  }

  /** The list after a successful update: every entry with the id becomes
      the category the server returned. */
  function Replaced(s: seq<Category>, id: int, updated: Category): (r: seq<Category>)
    ensures |r| == |s|
    ensures forall i :: 0 <= i < |s| ==> r[i] == if s[i].categoryId == id then updated else s[i]
  {
    MapWhereId(s, id, IdOf, _ => updated)
  }

  /** The list after a successful toggle: every entry with the id gets the
      new flag and keeps every other field. */
  function Toggled(s: seq<Category>, id: int, isActive: bool): (r: seq<Category>)
    ensures |r| == |s|
    ensures forall i :: 0 <= i < |s| ==> r[i] == if s[i].categoryId == id then s[i].(isActiveOnHomepage := isActive) else s[i]
  {
    MapWhereId(s, id, IdOf, (c: Category) => c.(isActiveOnHomepage := isActive))
  }

  /** The list after a successful delete. */
  function Removed(s: seq<Category>, id: int): (r: seq<Category>)
    ensures forall x :: x in r <==> x in s && x.categoryId != id
  {
    RemoveWhereId(s, id, IdOf)
  }

  /** Switching a flag off never raises the count, and switching it on
      raises it by at most the number of entries carrying the id. */
  lemma {:induction false} ToggledCount(s: seq<Category>, id: int, isActive: bool)
    ensures ActiveCount(Toggled(s, id, isActive)) <= ActiveCount(s) + CountId(s, id, IdOf)
    ensures !isActive ==> ActiveCount(Toggled(s, id, isActive)) <= ActiveCount(s)
  {
    if s != [] {
      var t := Toggled(s, id, isActive);
      ToggledCount(s[1..], id, isActive);
      assert t[1..] == Toggled(s[1..], id, isActive);
      assert t == [t[0]] + t[1..];
    }
  }

  /** In a list without repeated ids, an id occurs at most once. */
  lemma {:induction false} DistinctCountId(s: seq<Category>, id: int)
    requires DistinctIds(s)
    ensures CountId(s, id, IdOf) <= 1
  {
    if s != [] {
      DistinctCountId(s[1..], id);
      if s[0].categoryId == id {
        NoOtherEntryHasId(s, id);
      }
    }
  }

  lemma {:induction false} NoOtherEntryHasId(s: seq<Category>, id: int)
    requires DistinctIds(s) && s != [] && s[0].categoryId == id
    ensures CountId(s[1..], id, IdOf) == 0
  {
    AbsentIdCount(s[1..], id);
  }

  lemma {:induction false} AbsentIdCount(s: seq<Category>, id: int)
    requires forall x :: x in s ==> x.categoryId != id
    ensures CountId(s, id, IdOf) == 0
  {
    if s != [] {
      assert s[0] in s;
      AbsentIdCount(s[1..], id);
    }
  }

  /** The client-side check keeps the cached homepage count within the cap:
      in a list without repeated ids whose count is within the cap, any
      toggle the store lets through leaves it within the cap. */
  lemma ToggleKeepsCap(s: seq<Category>, id: int, isActive: bool)
    requires DistinctIds(s) && ActiveCount(s) <= MaxActive
    requires !(isActive && ActiveCount(s) >= MaxActive)
    ensures ActiveCount(Toggled(s, id, isActive)) <= MaxActive
  {
    ToggledCount(s, id, isActive);
    DistinctCountId(s, id);
  }

  class CategoryCache {
    var categories: seq<Category>
    var loading: bool
    var error: Option<string>

    constructor ()
      ensures categories == [] && !loading && error == None
    {
      categories := [];
      loading := false;
      error := None;
    }

    /** The first half of a fetch: loading on, error cleared. */
    method BeginFetch()
      modifies this
      ensures loading && error == None && categories == old(categories)
    {
      loading := true;
      error := None;
    }

    /** The second half of a fetch: the server's list replaces the cache, or
        the error is recorded and the cache kept; loading ends either way. */
    method EndFetch(outcome: Outcome<seq<Category>>)
      modifies this
      ensures !loading
      ensures outcome.Ok? ==> categories == outcome.value && error == old(error)
      ensures outcome.Failed? ==>
                categories == old(categories)
                && error == Some(ErrorText(outcome.message, "Failed to fetch categories"))
    {
      match outcome {
        case Ok(list) =>
          categories := list;
        case Failed(message) =>
          error := Some(ErrorText(message, "Failed to fetch categories"));
      }
      loading := false;
    }

    method FetchCategories(outcome: Outcome<seq<Category>>)
      modifies this
      ensures !loading
      ensures outcome.Ok? ==> categories == outcome.value && error == None
      ensures outcome.Failed? ==>
                categories == old(categories)
                && error == Some(ErrorText(outcome.message, "Failed to fetch categories"))
    {
      BeginFetch();
      EndFetch(outcome);
    }

    /** Records a failed call: the list and the loading flag stay. */
    method Fail(message: string, fallback: string) returns (success: bool, err: Option<string>)
      modifies this
      ensures !success && err == Some(ErrorText(message, fallback)) && error == err
      ensures categories == old(categories) && loading == old(loading)
    {
      error := Some(ErrorText(message, fallback));
      return false, error;
    }

    /** On success the new category goes at the end, the earlier entries
        keep their order and the error is cleared. */
    method CreateCategory(outcome: Outcome<Category>) returns (success: bool, err: Option<string>)
      modifies this
      ensures loading == old(loading)
      ensures success <==> outcome.Ok?
      ensures outcome.Ok? ==>
                categories == old(categories) + [outcome.value] && error == None && err == None
      ensures outcome.Failed? ==>
                categories == old(categories)
                && err == Some(ErrorText(outcome.message, "Failed to create category")) && error == err
    {
      match outcome
      case Ok(c) =>
        categories := categories + [c];
        error := None;
        return true, None;
      case Failed(message) =>
        success, err := Fail(message, "Failed to create category");
    }

    method UpdateCategory(id: int, outcome: Outcome<Category>) returns (success: bool, err: Option<string>)
      modifies this
      ensures loading == old(loading)
      ensures success <==> outcome.Ok?
      ensures outcome.Ok? ==>
                categories == Replaced(old(categories), id, outcome.value) && error == None && err == None
      ensures outcome.Failed? ==>
                categories == old(categories)
                && err == Some(ErrorText(outcome.message, "Failed to update category")) && error == err
    {
      match outcome
      case Ok(c) =>
        categories := Replaced(categories, id, c);
        error := None;
        return true, None;
      case Failed(message) =>
        success, err := Fail(message, "Failed to update category");
    }

    method DeleteCategory(id: int, outcome: Outcome<()>) returns (success: bool, err: Option<string>)
      modifies this
      ensures loading == old(loading)
      ensures success <==> outcome.Ok?
      ensures outcome.Ok? ==>
                categories == Removed(old(categories), id) && error == None && err == None
      ensures outcome.Failed? ==>
                categories == old(categories)
                && err == Some(ErrorText(outcome.message, "Failed to delete category")) && error == err
    {
      match outcome
      case Ok(_) =>
        categories := Removed(categories, id);
        error := None;
        return true, None;
      case Failed(message) =>
        success, err := Fail(message, "Failed to delete category");
    }

    /** Switching a category on while four or more cached entries are on is
        refused before any call, and nothing changes. Otherwise the API is
        called; on success only the flag of the matching entries changes. */
    method ToggleHomepage(id: int, isActive: bool, outcome: Outcome<Category>)
      returns (success: bool, err: Option<string>, ghost calledApi: bool)
      modifies this
      ensures loading == old(loading)
      ensures calledApi <==> !(isActive && ActiveCount(old(categories)) >= MaxActive)
      ensures !calledApi ==>
                !success && err == Some(CapMessage) && categories == old(categories) && error == old(error)
      ensures calledApi ==> (success <==> outcome.Ok?)
      ensures calledApi && outcome.Ok? ==>
                categories == Toggled(old(categories), id, isActive) && error == None && err == None
      ensures calledApi && outcome.Failed? ==>
                categories == old(categories)
                && err == Some(ErrorText(outcome.message, "Failed to toggle homepage status")) && error == err
    {
      if isActive && ActiveCount(categories) >= MaxActive {
        return false, Some(CapMessage), false;
      }
      calledApi := true;
      match outcome
      case Ok(_) =>
        categories := Toggled(categories, id, isActive);
        error := None;
        return true, None, true;
      case Failed(message) =>
        success, err := Fail(message, "Failed to toggle homepage status");
    }

    method SetError(e: Option<string>)
      modifies this
      ensures error == e && categories == old(categories) && loading == old(loading)
    {
      error := e;
    }

    method ClearError()
      modifies this
      ensures error == None && categories == old(categories) && loading == old(loading)
    {
      error := None;
    }
  }
}
