/** The category endpoints of the backend: create, update, delete, list all,
    switch the "shown on the homepage" flag (at most four categories may carry
    it), and list the categories carrying it. The `categories` table is a map
    from the auto-incremented id to the row. */
module CategoryController {
  import opened Common

  datatype Category = Category(
    categoryId: int,
    name: string,
    description: Option<string>,
    isActiveOnHomepage: bool)

  /** The most categories the homepage shows. */
  const MaxActive := 4

  /** The ids of the rows whose homepage flag is set. */
  function ActiveIds(rows: map<int, Category>): (ids: set<int>)
    ensures forall id :: id in ids <==> id in rows && rows[id].isActiveOnHomepage
  {
    set id | id in rows && rows[id].isActiveOnHomepage
  }

  /** `Category.count({ where: { isActiveOnHomepage: true } })`. */
  function ActiveCount(rows: map<int, Category>): nat {
    |ActiveIds(rows)|
  }

  predicate NameTaken(rows: map<int, Category>, name: string) {
    exists id :: id in rows && rows[id].name == name
  }

  /** Another row than `id` already carries `name`: the unique index on
      `name` refuses the write. */
  predicate NameTakenByOther(rows: map<int, Category>, id: int, name: string) {
    exists other :: other in rows && other != id && rows[other].name == name
  }

  /** Writing a row with the flag set adds its id to the active ids;
      writing one without the flag removes it. */
  lemma ActiveIdsAfterWrite(rows: map<int, Category>, id: int, c: Category)
    ensures ActiveIds(rows[id := c]) == if c.isActiveOnHomepage then ActiveIds(rows) + {id} else ActiveIds(rows) - {id}
  {
  }

  /** Writing one row changes the active count by at most one, in the
      direction of the flag written, and not at all when the flag the row
      had is kept. */
  lemma {:induction false} SetRowActiveCount(rows: map<int, Category>, id: int, c: Category)
    ensures c.isActiveOnHomepage ==> ActiveCount(rows[id := c]) <= ActiveCount(rows) + 1
    ensures !c.isActiveOnHomepage ==> ActiveCount(rows[id := c]) <= ActiveCount(rows)
    ensures (id in rows && rows[id].isActiveOnHomepage == c.isActiveOnHomepage)
            || (id !in rows && !c.isActiveOnHomepage)
            ==> ActiveCount(rows[id := c]) == ActiveCount(rows)
  {
    var before := ActiveIds(rows);
    var after := ActiveIds(rows[id := c]);
    ActiveIdsAfterWrite(rows, id, c);
    if c.isActiveOnHomepage {
      CardAdd(before, id);
    } else {
      CardRemove(before, id);
    }
  }

  lemma CardAdd(s: set<int>, x: int)
    ensures x in s ==> |s + {x}| == |s|
    ensures x !in s ==> |s + {x}| == |s| + 1
  {
    if x in s {
      assert s + {x} == s;
    }
  }

  lemma CardRemove(s: set<int>, x: int)
    ensures x in s ==> |s - {x}| == |s| - 1
    ensures x !in s ==> |s - {x}| == |s|
  {
    if x in s {
      assert s == (s - {x}) + {x};
    } else {
      assert s - {x} == s;
    }
  }

  /** Deleting a row never raises the active count. */
  lemma {:induction false} RemoveRowActiveCount(rows: map<int, Category>, id: int)
    ensures ActiveCount(rows - {id}) <= ActiveCount(rows)
    ensures id !in rows || !rows[id].isActiveOnHomepage ==> ActiveCount(rows - {id}) == ActiveCount(rows)
  {
    assert ActiveIds(rows - {id}) == ActiveIds(rows) - {id};
    CardRemove(ActiveIds(rows), id);
  }

  /** Looking up ids that are all keys of a table whose rows carry their own
      key as id gives rows of the table, each under its own id. */
  lemma {:induction false} RowsOfKeys(rows: map<int, Category>, ids: seq<int>)
    requires forall id :: id in rows ==> rows[id].categoryId == id
    requires forall k :: 0 <= k < |ids| ==> ids[k] in rows
    ensures forall c :: c in RowsOf(rows, ids) ==> c.categoryId in rows && rows[c.categoryId] == c
    ensures forall id :: id in ids ==> rows[id] in RowsOf(rows, ids)
  {
    var r := RowsOf(rows, ids);
    forall c | c in r ensures c.categoryId in rows && rows[c.categoryId] == c {
      var k :| 0 <= k < |r| && r[k] == c;
      var id := ids[k];
      assert id in rows;
      assert c == rows[id];
      assert rows[id].categoryId == id;
    }
    forall id | id in ids ensures rows[id] in r {
      var k :| 0 <= k < |ids| && ids[k] == id;
      assert r[k] == rows[id];
    }
  }

  /** The first `n` of an enumeration of the flagged ids, looked up: flagged
      rows under their own ids, no id twice, and every flagged row when `n`
      covers the whole enumeration. */
  lemma {:induction false} ShownActiveRows(rows: map<int, Category>, ids: seq<int>, n: nat)
    requires forall id :: id in rows ==> rows[id].categoryId == id
    requires forall id :: id in ActiveIds(rows) <==> id in ids
    requires forall i, j :: 0 <= i < j < |ids| ==> ids[i] != ids[j]
    requires n <= |ids|
    ensures forall k :: 0 <= k < |ids[..n]| ==> ids[..n][k] in rows
    ensures forall c :: c in RowsOf(rows, ids[..n]) ==>
              c.categoryId in rows && rows[c.categoryId] == c && c.isActiveOnHomepage
    ensures forall i, j :: 0 <= i < j < n ==>
              RowsOf(rows, ids[..n])[i].categoryId != RowsOf(rows, ids[..n])[j].categoryId
    ensures n == |ids| ==>
              forall id :: id in rows && rows[id].isActiveOnHomepage ==> rows[id] in RowsOf(rows, ids[..n])
  {
    var shown := ids[..n];
    forall k | 0 <= k < |shown| ensures shown[k] in rows && rows[shown[k]].isActiveOnHomepage {
      assert shown[k] == ids[k] && ids[k] in ids;
    }
    RowsOfKeys(rows, shown);
    var r := RowsOf(rows, shown);
    forall c | c in r ensures c.isActiveOnHomepage {
      var k :| 0 <= k < |r| && r[k] == c;
    }
    forall i, j | 0 <= i < j < n ensures r[i].categoryId != r[j].categoryId {
      assert shown[i] == ids[i] && shown[j] == ids[j];
    }
    if n == |ids| {
      assert shown == ids;
    }
  }

  class CategoryTable {
    var rows: map<int, Category>
    /** The value the auto-increment column hands out next. */
    var nextId: int

    /** Rows are keyed by their own id, every id was handed out before, and
        names are unique. */
    ghost predicate Valid()
      reads this
    {
      && nextId >= 1
      && (forall id :: id in rows ==> rows[id].categoryId == id && 1 <= id < nextId)
      && (forall a, b :: a in rows && b in rows && rows[a].name == rows[b].name ==> a == b)
    }

    constructor ()
      ensures Valid() && rows == map[] && nextId == 1
    {
      rows := map[];
      nextId := 1;
    }

    /** POST /categories. A request without a name fails inside the lookup
        by name (an undefined WHERE value), so it answers 500. A name that is
        taken answers 400. Otherwise the new row gets the next id and starts
        off the homepage. */
    method CreateCategory(name: Option<string>, description: Option<string>)
      returns (status: int, created: Option<Category>)
      requires Valid()
      modifies this
      ensures Valid()
      ensures name.None? ==> status == 500 && created == None && rows == old(rows) && nextId == old(nextId)
      ensures name.Some? && NameTaken(old(rows), name.value) ==>
                status == 400 && created == None && rows == old(rows) && nextId == old(nextId)
      ensures name.Some? && !NameTaken(old(rows), name.value) ==>
                && status == 201
                && created == Some(Category(old(nextId), name.value, description, false))
                && rows == old(rows)[old(nextId) := created.value]
                && nextId == old(nextId) + 1
      ensures ActiveCount(rows) == ActiveCount(old(rows))
    {
      if name.None? {
        return 500, None;
      }
      if NameTaken(rows, name.value) {
        return 400, None;
      }
      var c := Category(nextId, name.value, description, false);
      SetRowActiveCount(rows, nextId, c);
      rows := rows[nextId := c];
      nextId := nextId + 1;
      return 201, Some(c);
    }

    /** PUT /categories/:categoryId. Absent fields keep their value; a name
        another row carries makes the write fail with 500. The homepage flag
        is not touched. */
    method UpdateCategory(id: int, name: Option<string>, description: Option<string>)
      returns (status: int, updated: Option<Category>)
      requires Valid()
      modifies this
      ensures Valid() && nextId == old(nextId)
      ensures id !in old(rows) ==> status == 404 && updated == None && rows == old(rows)
      ensures id in old(rows) && name.Some? && NameTakenByOther(old(rows), id, name.value) ==>
                status == 500 && updated == None && rows == old(rows)
      ensures id in old(rows) && !(name.Some? && NameTakenByOther(old(rows), id, name.value)) ==>
                var c := old(rows)[id];
                && status == 200
                && updated == Some(Category(id, name.GetOr(c.name),
                                            if description.Some? then description else c.description,
                                            c.isActiveOnHomepage))
                && rows == old(rows)[id := updated.value]
      ensures ActiveCount(rows) == ActiveCount(old(rows))
    {
      if id !in rows {
        return 404, None;
      }
      if name.Some? && NameTakenByOther(rows, id, name.value) {
        return 500, None;
      }
      var c := rows[id];
      var d := if description.Some? then description else c.description;
      var u := Category(id, name.GetOr(c.name), d, c.isActiveOnHomepage);
      SetRowActiveCount(rows, id, u);
      rows := rows[id := u];
      return 200, Some(u);
    }

    /** DELETE /categories/:categoryId. */
    method DeleteCategory(id: int) returns (status: int)
      requires Valid()
      modifies this
      ensures Valid() && nextId == old(nextId)
      ensures id !in old(rows) ==> status == 404 && rows == old(rows)
      ensures id in old(rows) ==> status == 200 && rows == old(rows) - {id}
      ensures ActiveCount(rows) <= ActiveCount(old(rows))
    {
      if id !in rows {
        return 404;
      }
      RemoveRowActiveCount(rows, id);
      rows := rows - {id};
      return 200;
    }

    /** PATCH /categories/:categoryId/toggle-homepage. Switching the flag on
        is refused with 400 while four or more rows carry it (the row itself
        included). An absent `isActive` leaves the row as it is. The cap is
        kept: a table with at most four active rows still has at most four. */
    method ToggleCategoryHomepage(id: int, isActive: Option<bool>)
      returns (status: int, updated: Option<Category>)
      requires Valid()
      modifies this
      ensures Valid() && nextId == old(nextId)
      ensures id !in old(rows) ==> status == 404 && updated == None && rows == old(rows)
      ensures id in old(rows) && isActive == Some(true) && ActiveCount(old(rows)) >= MaxActive ==>
                status == 400 && updated == None && rows == old(rows)
      ensures id in old(rows) && isActive.None? ==>
                status == 200 && updated == Some(old(rows)[id]) && rows == old(rows)
      ensures id in old(rows) && isActive.Some? && !(isActive.value && ActiveCount(old(rows)) >= MaxActive) ==>
                && status == 200
                && updated == Some(old(rows)[id].(isActiveOnHomepage := isActive.value))
                && rows == old(rows)[id := updated.value]
      ensures ActiveCount(old(rows)) <= MaxActive ==> ActiveCount(rows) <= MaxActive
    {
      if id !in rows {
        return 404, None;
      }
      if isActive == Some(true) && ActiveCount(rows) >= MaxActive {
        return 400, None;
      }
      if isActive.None? {
        return 200, Some(rows[id]);
      }
      var u := rows[id].(isActiveOnHomepage := isActive.value);
      SetRowActiveCount(rows, id, u);
      rows := rows[id := u];
      return 200, Some(u);
    }

    /** GET /categories: 404 when the table is empty, otherwise every row
        once, in an order the store does not promise. */
    method GetAllCategories() returns (status: int, categories: seq<Category>)
      requires Valid()
      ensures status == 404 <==> |rows| == 0
      ensures status != 404 ==> status == 200
      ensures |categories| == |rows|
      ensures forall id :: id in rows ==> rows[id] in categories
      ensures forall c :: c in categories ==> c.categoryId in rows && rows[c.categoryId] == c
    {
      if |rows| == 0 {
        return 404, [];
      }
      var ids := EnumerateKeys(rows.Keys);
      assert |ids| == |rows|;
      assert forall k :: 0 <= k < |ids| ==> ids[k] in ids;
      RowsOfKeys(rows, ids);
      categories := RowsOf(rows, ids);
      status := 200;
    }

    /** GET /categories/active: at most four rows carrying the homepage flag;
        when the cap holds that is all of them. */
    method GetActiveCategories() returns (status: int, categories: seq<Category>)
      requires Valid()
      ensures status == 200
      ensures |categories| == if ActiveCount(rows) < MaxActive then ActiveCount(rows) else MaxActive
      ensures forall c :: c in categories ==>
                c.categoryId in rows && rows[c.categoryId] == c && c.isActiveOnHomepage
      ensures forall i, j :: 0 <= i < j < |categories| ==> categories[i].categoryId != categories[j].categoryId
      ensures ActiveCount(rows) <= MaxActive ==>
                forall id :: id in rows && rows[id].isActiveOnHomepage ==> rows[id] in categories
    {
      var ids := EnumerateKeys(ActiveIds(rows));
      var n := if |ids| < MaxActive then |ids| else MaxActive;
      ShownActiveRows(rows, ids, n);
      categories := RowsOf(rows, ids[..n]);
      status := 200;
    }
  }
}
