/** The category service: a paged listing that treats an empty page as an
    error, creation guarded by a name check, update by path id without a
    name check, and removal. A `Failure` leaves the table as it was. */
module Categories {
  import opened Wrappers
  import opened Errors
  import opened Paging

  type CategoryId = nat

  datatype Category = Category(id: CategoryId, name: string)

  /** The client's view of a category; the id it carries is never trusted. */
  datatype CategoryDto = CategoryDto(id: Option<int>, name: string)

  /** The categories table with its identity counter. */
  datatype Table = Table(rows: map<CategoryId, Category>, nextId: CategoryId)

  predicate Valid(t: Table) {
    forall id | id in t.rows :: id < t.nextId && t.rows[id].id == id
  }

  /** `findByCategoryName` finds a row. */
  predicate NameInUse(t: Table, name: string) {
    exists id | id in t.rows :: t.rows[id].name == name
  }

  /** `getCategories`: the sort criteria are built first, then the page
      request, then the page is cut from the table's rows in the order the
      repository returns them (`order`); an empty page is an error. */
  function GetCategories(t: Table, order: seq<CategoryId>, pageNumber: int, pageSize: int, sortBy: string, sortOrder: string)
    : (r: Result<(seq<Category>, Direction), Error>)
    requires IsOrdering(t.rows, order)
    ensures !HasText(sortBy) || pageNumber < 0 || pageSize < 1 ==> r == Failure(IllegalArgument)
    ensures r.Success? <==> HasText(sortBy) && pageNumber >= 0 && pageSize >= 1 && pageNumber * pageSize < |t.rows|
    ensures HasText(sortBy) && pageNumber >= 0 && pageSize >= 1 && r.Failure? ==> r.error == Api(NoCategories)
    ensures r.Success? ==>
              && 0 < |r.value.0| <= pageSize
              && (forall k | 0 <= k < |r.value.0| ::
                    pageNumber * pageSize + k < |order| && r.value.0[k] == t.rows[order[pageNumber * pageSize + k]])
              && (r.value.1 == Ascending <==> EqualsIgnoreCase(sortOrder, "asc"))
  {
    var direction :- SortCriteria(sortBy, sortOrder);
    var page :- PageOf(Arrange(t.rows, order), pageNumber, pageSize);
    if |page| == 0 then Failure(Api(NoCategories)) else Success((page, direction))
  }

  /** With no categories at all every well-formed request is an error,
      never an empty list. */
  lemma NoCategoriesIsAnError(t: Table, order: seq<CategoryId>, pageNumber: int, pageSize: int, sortBy: string, sortOrder: string)
    requires IsOrdering(t.rows, order) && t.rows == map[]
    requires HasText(sortBy) && pageNumber >= 0 && pageSize >= 1
    ensures GetCategories(t, order, pageNumber, pageSize, sortBy, sortOrder) == Failure(Api(NoCategories))
  {
  }

  /** Every stored category is listed: the row at position `i` of the
      repository's order is at place `i % pageSize` of page `i / pageSize`. */
  lemma EveryCategoryListed(t: Table, order: seq<CategoryId>, pageSize: int, sortBy: string, sortOrder: string, id: CategoryId)
    requires IsOrdering(t.rows, order) && id in t.rows
    requires HasText(sortBy) && pageSize >= 1
    ensures id in order
    ensures var i := IndexOf(order, id);
            var r := GetCategories(t, order, i / pageSize, pageSize, sortBy, sortOrder);
            && r.Success?
            && i % pageSize < |r.value.0|
            && r.value.0[i % pageSize] == t.rows[id]
  {
    OrderingCoversRows(t.rows, order);
    var i := IndexOf(order, id);
    PagesCoverListing(Arrange(t.rows, order), pageSize, i);
  }

  /** `createCategory`: a taken name is rejected; otherwise the row gets the
      next identity value, whatever id the client sent. */
  function CreateCategory(t: Table, dto: CategoryDto): (r: Result<(Table, Category), Error>)
    ensures r.Success? <==> !NameInUse(t, dto.name)
    ensures r.Failure? ==> r.error == Api(CategoryExists)
    ensures r.Success? ==>
              && r.value.1 == Category(t.nextId, dto.name)
              && r.value.0.rows == t.rows[t.nextId := r.value.1]
              && r.value.0.nextId == t.nextId + 1
    ensures Valid(t) && r.Success? ==> Valid(r.value.0) && t.nextId !in t.rows
  {
    if NameInUse(t, dto.name) then Failure(Api(CategoryExists))
    else
      var c := Category(t.nextId, dto.name);
      Success((Table(t.rows[c.id := c], t.nextId + 1), c))
  }

  /** `updateCategory`: the row under the path id is replaced by the
      client's data carrying the path id. No name check is made. */
  function UpdateCategory(t: Table, dto: CategoryDto, id: CategoryId): (r: Result<(Table, Category), Error>)
    ensures r.Success? <==> id in t.rows
    ensures r.Failure? ==> r.error == NotFound(CategoryRes)
    ensures r.Success? ==>
              && r.value.1 == Category(id, dto.name)
              && r.value.0.rows == t.rows[id := r.value.1]
              && r.value.0.nextId == t.nextId
    ensures Valid(t) && r.Success? ==> Valid(r.value.0)
  {
    if id !in t.rows then Failure(NotFound(CategoryRes))
    else
      var c := Category(id, dto.name);
      Success((t.(rows := t.rows[id := c]), c))
  }

  /** `removeCategory`: the row is deleted and returned. The cascade onto
      the category's products lies outside this table. */
  function RemoveCategory(t: Table, id: CategoryId): (r: Result<(Table, Category), Error>)
    ensures r.Success? <==> id in t.rows
    ensures r.Failure? ==> r.error == NotFound(CategoryRes)
    ensures r.Success? ==>
              && r.value.1 == t.rows[id]
              && r.value.0.rows == t.rows - {id}
              && r.value.0.nextId == t.nextId
    ensures Valid(t) && r.Success? ==> Valid(r.value.0)
  {
    if id !in t.rows then Failure(NotFound(CategoryRes))
    else Success((t.(rows := t.rows - {id}), t.rows[id]))
  }

  /** Removing a freshly created category gives it back and restores the
      rows; a second creation under the same name is refused. */
  lemma CreateThenRemove(t: Table, dto: CategoryDto)
    requires Valid(t)
    requires CreateCategory(t, dto).Success?
    ensures var (t1, c) := CreateCategory(t, dto).value;
            && RemoveCategory(t1, c.id).Success?
            && RemoveCategory(t1, c.id).value.1 == c
            && RemoveCategory(t1, c.id).value.0.rows == t.rows
            && CreateCategory(t1, dto) == Failure(Api(CategoryExists))
  {
  }

  /** Updating keeps the table's set of ids and may give two rows the same
      name: the name check guards creation only. */
  lemma UpdateMayDuplicateNames()
    ensures var t := Table(map[0 := Category(0, "Books"), 1 := Category(1, "Games")], 2);
            var r := UpdateCategory(t, CategoryDto(Some(5), "Books"), 1);
            && r.Success?
            && r.value.1 == Category(1, "Books")
            && r.value.0.rows[0].name == r.value.0.rows[1].name
            && CreateCategory(t, CategoryDto(None, "Books")) == Failure(Api(CategoryExists))
  {
  }
}
