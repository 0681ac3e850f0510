/**
 * The generic CRUD repository that opens a scoped session per call
 * (`fastapi_dream_core/repository/base_repository.py`), over the in-memory
 * table. Each scoped session works on the same table, so the factory is the
 * table itself.
 */
module SessionRepository {
  import opened Wrappers
  import opened Orm
  import opened Pagination
  import opened Queries

  /** The `page_query` argument: a `PageQuery` object or a value of another type, given by `repr(type(value))`. */
  datatype PageQueryArg = PageQueryObject(query: PageQuery) | NotPageQuery(typeRepr: string)

  /** The message of the `ValueError` raised when `page_query` is not a `PageQuery`. */
  function NotPageQueryMessage(typeRepr: string): string
  {
    "page_query should be a PageQuery obj, received " + typeRepr
  }

  /** The message of the `ValueError` pydantic raises when `setattr` names no field of the model. */
  function NoFieldMessage(modelName: string, field: string): string
  {
    "\"" + modelName + "\" object has no field \"" + field + "\""
  }

  /**
   * The `obj_in` of `create`: a raw dict whose every key is set on a fresh
   * object, or a create schema, given by its encoded fields.
   */
  datatype CreatePayload = CreateDict(data: map<string, Value>) | CreateSchema(encoded: map<string, Value>)

  /**
   * `Page.create(items=session.exec(query).all(), total=count, ...)`: the window
   * `[get_offset(), get_offset() + size)` of the ordered matches, the number of
   * all matches, and the page and size asked for.
   */
  function FindPage(rows: seq<Record>, columns: Columns, filters: map<string, Value>, q: PageQuery, order: string, desc: bool): Page<Record>
  {
    Page(q.page, q.size, |FilterBy(rows, filters)|, Window(FindAll(rows, columns, filters, order, desc), q.GetOffset(), q.size))
  }

  /**
   * The page echoes the page and size asked for, and holds the same items and
   * total as the single-session repository's result for the same page.
   */
  lemma FindPageAgrees(rows: seq<Record>, columns: Columns, filters: map<string, Value>, q: PageQuery, order: string, desc: bool)
    ensures var page := FindPage(rows, columns, filters, q, order, desc);
      var result := Paginated(rows, columns, filters, Params(q.page, q.size), order, desc);
      && page.page == q.page && page.size == q.size
      && page.items == result.items && page.total == result.count
      && |page.items| <= q.size
  {
    assert q.GetOffset() == GetOffset(Params(q.page, q.size));
  }

  class BaseRepository {
    /** The table every session from the factory works on; its columns are the model's attributes. */
    const table: Table
    /** The class name of the model, as `__class__.__name__` gives it. */
    const modelName: string

    constructor (table: Table, modelName: string)
      ensures this.table == table && this.modelName == modelName
    {
      this.table := table;
      this.modelName := modelName;
    }

    /**
     * `__sanitize_filters_from_model`: walk a copy of the keys, deleting from
     * the caller's dict each key that names no attribute of the model.
     */
    method SanitizeFiltersFromModel(filters: FilterArg) returns (r: Result<map<string, Value>>)
      modifies FilterObjects(filters)
      ensures !filters.DictFilters? ==> r == Failure(ValueError(NotADictMessage(filters)))
      ensures filters.DictFilters? ==> r == Success(filters.dict.items)
      ensures SanitizedInPlace(filters, table.columns)
    {
      if !filters.DictFilters? {
        return Failure(ValueError(NotADictMessage(filters)));
      }
      var dict := filters.dict;
      ghost var before := dict.items;
      var keys := dict.items.Keys;
      while keys != {}
        invariant keys <= before.Keys
        invariant dict.items == map k | k in before && (k in keys || k in table.columns) :: before[k]
        decreases keys
      {
        var key :| key in keys;
        if key !in table.columns {
          dict.items := dict.items - {key};
        }
        keys := keys - {key};
      }
      r := Success(dict.items);
    }

    /** `sanitize(filters) if filters else {}`. */
    method CheckFilters(filters: FilterArg) returns (r: Result<map<string, Value>>)
      modifies FilterObjects(filters)
      ensures r == FiltersOutcome(filters, old(DictContents(filters)), table.columns)
      ensures SanitizedInPlace(filters, table.columns)
    {
      var truthy := match filters
        case NoFilters => false
        case DictFilters(d) => |d.items| > 0
        case OtherFilters(_, t) => t;
      if truthy {
        r := SanitizeFiltersFromModel(filters);
      } else {
        r := Success(map[]);
        assert filters.DictFilters? ==> filters.dict.items == map[];
      }
    }

    /** `find_one_by_filters`: the first matching row, or `None`. */
    method FindOneByFilters(filters: FilterArg := NoFilters) returns (r: Result<Option<Record>>)
      modifies FilterObjects(filters)
      ensures SanitizedInPlace(filters, table.columns)
      ensures r == match FiltersOutcome(filters, old(DictContents(filters)), table.columns)
        case Failure(e) => Failure(e)
        case Success(f) => Success(First(FilterBy(table.rows, f)))
    {
      var checked := CheckFilters(filters);
      if checked.Failure? {
        return Failure(checked.error);
      }
      r := Success(First(FilterBy(table.rows, checked.value)));
    }

    /**
     * `find_by_filters_paginated`: a non-`PageQuery` argument is refused before
     * a session is opened; otherwise the page of ordered matches.
     */
    method FindByFiltersPaginated(
      pageQuery: PageQueryArg := PageQueryObject(DefaultPageQuery),
      filters: FilterArg := NoFilters,
      order: string := "id",
      desc: bool := false)
      returns (r: Result<Page<Record>>)
      modifies FilterObjects(filters)
      ensures pageQuery.NotPageQuery? ==>
        r == Failure(ValueError(NotPageQueryMessage(pageQuery.typeRepr))) && unchanged(FilterObjects(filters))
      ensures pageQuery.PageQueryObject? ==> SanitizedInPlace(filters, table.columns)
      ensures pageQuery.PageQueryObject? ==>
        r == match FiltersOutcome(filters, old(DictContents(filters)), table.columns)
          case Failure(e) => Failure(e)
          case Success(f) => Success(FindPage(table.rows, table.columns, f, pageQuery.query, order, desc))
    {
      if pageQuery.NotPageQuery? {
        return Failure(ValueError(NotPageQueryMessage(pageQuery.typeRepr)));
      }
      var q := pageQuery.query;
      var checked := CheckFilters(filters);
      if checked.Failure? {
        return Failure(checked.error);
      }
      var query := Window(FindAll(table.rows, table.columns, checked.value, order, desc), q.GetOffset(), q.size);
      var count := CountByFiltersQuery(checked.value);
      var page := CreatePage(query, count, q.page, q.size);
      r := Success(page.value);
    }

    /** `find_all_by_filters`: every match, ordered when `order` names an attribute of the model. */
    method FindAllByFilters(filters: FilterArg := NoFilters, order: string := "id", desc: bool := false)
      returns (r: Result<seq<Record>>)
      modifies FilterObjects(filters)
      ensures SanitizedInPlace(filters, table.columns)
      ensures r == match FiltersOutcome(filters, old(DictContents(filters)), table.columns)
        case Failure(e) => Failure(e)
        case Success(f) => Success(FindAll(table.rows, table.columns, f, order, desc))
    {
      var checked := CheckFilters(filters);
      if checked.Failure? {
        return Failure(checked.error);
      }
      r := Success(FindAll(table.rows, table.columns, checked.value, order, desc));
    }

    /** `__count_by_filters_query`: `select count()` under already-sanitised filters. */
    method CountByFiltersQuery(filters: map<string, Value>) returns (count: nat)
      ensures count == |FilterBy(table.rows, filters)|
    {
      count := |FilterBy(table.rows, filters)|;
    }

    /** `count_by_filters`: the number of matches. */
    method CountByFilters(filters: FilterArg := NoFilters) returns (r: Result<nat>)
      modifies FilterObjects(filters)
      ensures SanitizedInPlace(filters, table.columns)
      ensures r == match FiltersOutcome(filters, old(DictContents(filters)), table.columns)
        case Failure(e) => Failure(e)
        case Success(f) => Success(|FilterBy(table.rows, f)|)
    {
      var checked := CheckFilters(filters);
      if checked.Failure? {
        return Failure(checked.error);
      }
      var count := CountByFiltersQuery(checked.value);
      r := Success(count);
    }

    /**
     * `create`: from a dict, a blank `model()` gets every key of the dict set on
     * it (the inner `if field in obj_in` always holds), and a key that names no
     * field of the model makes `setattr` raise before anything is stored; from a
     * schema, `model(**payload)`. The stored row takes the model's columns, with
     * an id from the counter unless the payload carries one.
     */
    method Create(objIn: CreatePayload) returns (r: Result<Entity>)
      requires table.Valid()
      modifies table
      ensures table.Valid()
      ensures objIn.CreateDict? && !(objIn.data.Keys <= table.columns) ==>
        && table.rows == old(table.rows) && table.nextId == old(table.nextId)
        && exists k :: k in objIn.data && k !in table.columns && r == Failure(ValueError(NoFieldMessage(modelName, k)))
      ensures objIn.CreateSchema? || objIn.data.Keys <= table.columns ==>
        var attrs := match objIn
          case CreateDict(data) => RowFrom(map[], table.columns) + data
          case CreateSchema(encoded) => RowFrom(encoded, table.columns);
        var row := RowFrom(attrs, table.columns);
        match AssignId(old(table.rows), old(table.nextId), row["id"])
        case Failure(e) =>
          r == Failure(e) && table.rows == old(table.rows) && table.nextId == old(table.nextId)
        case Success(ids) =>
          && r.Success? && fresh(r.value)
          && r.value.attrs == attrs + row["id" := Int(ids.0)]
          && table.rows == old(table.rows) + [row["id" := Int(ids.0)]]
          && table.nextId == ids.1
    {
      var newObj: Entity;
      if objIn.CreateDict? {
        newObj := new Entity(RowFrom(map[], table.columns));
        var data := objIn.data;
        var fields := data.Keys;
        ghost var blank := newObj.attrs;
        while fields != {}
          modifies newObj
          invariant fields <= data.Keys
          invariant forall k :: k in data && k !in fields ==> k in table.columns
          invariant newObj.attrs == blank + map k | k in data && k !in fields :: data[k]
          decreases fields
        {
          var field :| field in fields;
          if field !in table.columns {
            return Failure(ValueError(NoFieldMessage(modelName, field)));
          }
          if field in data {
            newObj.attrs := newObj.attrs[field := data[field]];
          }
          fields := fields - {field};
        }
        assert (map k | k in data && k !in fields :: data[k]) == data;
      } else {
        newObj := new Entity(RowFrom(objIn.encoded, table.columns));
      }
      var outcome := table.Insert(newObj);
      if outcome.Failure? {
        return Failure(outcome.error);
      }
      r := Success(newObj);
    }

    /**
     * `update`: overwrite the object's fields that the payload names, then store
     * the object over the row it was loaded from (the row with its id on entry).
     */
    method Update(dbObj: Entity, objIn: UpdatePayload) returns (r: Result<Entity>)
      requires table.Valid()
      modifies table, dbObj
      ensures table.Valid()
      ensures var merged := Merged(old(dbObj.attrs), UpdateData(objIn));
        var id := Key(old(dbObj.attrs), "id");
        var row := RowFrom(merged, table.columns);
        if !HasId(old(table.rows), id) then
          && r == Failure(StaleDataError(StaleUpdateMessage(table.name)))
          && dbObj.attrs == merged && table.rows == old(table.rows) && table.nextId == old(table.nextId)
        else match ChangeId(old(table.rows), old(table.nextId), id, row["id"])
          case Failure(e) =>
            r == Failure(e) && dbObj.attrs == merged && table.rows == old(table.rows) && table.nextId == old(table.nextId)
          case Success(counter) =>
            && r == Success(dbObj)
            && dbObj.attrs == merged + row
            && table.rows == ReplaceRow(old(table.rows), id, row)
            && table.nextId == counter
    {
      var id := Key(dbObj.attrs, "id");
      ApplyUpdate(dbObj, UpdateData(objIn));
      var outcome := table.Save(dbObj, id);
      if outcome.Failure? {
        return Failure(outcome.error);
      }
      r := Success(dbObj);
    }

    /** `delete`: the object's row is removed; nothing is returned. */
    method Delete(obj: Entity)
      requires table.Valid()
      modifies table
      ensures table.Valid()
      ensures table.rows == RemoveRow(old(table.rows), Key(obj.attrs, "id"))
      ensures table.nextId == old(table.nextId)
    {
      table.Delete(obj);
    }
  }
}
