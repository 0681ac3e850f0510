/**
 * The generic CRUD repository bound to one long-lived session
 * (`fastapi_dream_core/base_repository.py`), over the in-memory table.
 */
module CoreRepository {
  import opened Wrappers
  import opened Orm
  import opened Pagination
  import opened Queries

  /** The `params` argument: a `Params` object or a value of another type, given by `repr(type(value))`. */
  datatype ParamsArg = ParamsObject(params: Params) | NotParams(typeRepr: string)

  /** The message of the `ValueError` raised when `params` is not a `Params`. */
  function NotParamsMessage(typeRepr: string): string
  {
    "params should be a Params obj, received " + typeRepr
  }

  class BaseRepository {
    /** The session's table; its columns are the attributes of the repository's model. */
    const table: Table

    constructor (table: Table)
      ensures this.table == table
    {
      this.table := table;
    }

    /**
     * `__sanitize_filters_from_model`: collect the keys that name no attribute
     * of the model, then delete them from the caller's dict.
     */
    method SanitizeFiltersFromModel(filters: FilterArg) returns (r: Result<map<string, Value>>)
      modifies FilterObjects(filters)
      ensures !filters.DictFilters? ==> r == Failure(ValueError(NotADictMessage(filters)))
      ensures filters.DictFilters? ==> r == Success(filters.dict.items)
      ensures SanitizedInPlace(filters, table.columns)
    {
      if !filters.DictFilters? {
        return Failure(ValueError(NotADictMessage(filters)));
      }
      var dict := filters.dict;
      var toDelete: seq<string> := [];
      var keys := dict.items.Keys;
      while keys != {}
        invariant keys <= dict.items.Keys
        invariant forall k :: k in toDelete <==> k in dict.items && k !in keys && k !in table.columns
        decreases keys
      {
        var key :| key in keys;
        if key !in table.columns {
          toDelete := toDelete + [key];
        }
        keys := keys - {key};
      }
      ghost var before := dict.items;
      var i := 0;
      while i < |toDelete|
        invariant 0 <= i <= |toDelete|
        invariant dict.items == map k | k in before && k !in toDelete[..i] :: before[k]
      {
        dict.items := dict.items - {toDelete[i]};
        i := i + 1;
      }
      assert toDelete[..i] == toDelete;
      r := Success(dict.items);
    }

    /** `sanitize(filters) if filters else {}`. */
    method CheckFilters(filters: FilterArg) returns (r: Result<map<string, Value>>)
      modifies FilterObjects(filters)
      ensures r == FiltersOutcome(filters, old(DictContents(filters)), table.columns)
      ensures SanitizedInPlace(filters, table.columns)
    {
      var truthy := match filters
        case NoFilters => false
        case DictFilters(d) => |d.items| > 0
        case OtherFilters(_, t) => t;
      if truthy {
        r := SanitizeFiltersFromModel(filters);
      } else {
        r := Success(map[]);
        assert filters.DictFilters? ==> filters.dict.items == map[];
      }
    }

    /** `get_one_by_filters`: the first matching row, or `None`. */
    method GetOneByFilters(filters: FilterArg := NoFilters) returns (r: Result<Option<Record>>)
      modifies FilterObjects(filters)
      ensures SanitizedInPlace(filters, table.columns)
      ensures r == match FiltersOutcome(filters, old(DictContents(filters)), table.columns)
        case Failure(e) => Failure(e)
        case Success(f) => Success(First(FilterBy(table.rows, f)))
    {
      var checked := CheckFilters(filters);
      if checked.Failure? {
        return Failure(checked.error);
      }
      r := Success(First(FilterBy(table.rows, checked.value)));
    }

    /**
     * `find_by_filters_paginated`: a non-`Params` argument is refused before
     * anything else; otherwise the window of the ordered matches and their count.
     */
    method FindByFiltersPaginated(
      params: ParamsArg := ParamsObject(DefaultParams),
      filters: FilterArg := NoFilters,
      order: string := "id",
      desc: bool := false)
      returns (r: Result<PaginationResult<Record>>)
      modifies FilterObjects(filters)
      ensures params.NotParams? ==>
        r == Failure(ValueError(NotParamsMessage(params.typeRepr))) && unchanged(FilterObjects(filters))
      ensures params.ParamsObject? ==> SanitizedInPlace(filters, table.columns)
      ensures params.ParamsObject? ==>
        r == match FiltersOutcome(filters, old(DictContents(filters)), table.columns)
          case Failure(e) => Failure(e)
          case Success(f) => Success(Paginated(table.rows, table.columns, f, params.params, order, desc))
    {
      if params.NotParams? {
        return Failure(ValueError(NotParamsMessage(params.typeRepr)));
      }
      var checked := CheckFilters(filters);
      if checked.Failure? {
        return Failure(checked.error);
      }
      var query := FindAll(table.rows, table.columns, checked.value, order, desc);
      var count := |FilterBy(table.rows, checked.value)|;
      r := Success(PaginationResult(Window(query, GetOffset(params.params), params.params.size), count));
    }

    /** `find_all_by_filters`: every match, ordered when `order` names an attribute of the model. */
    method FindAllByFilters(filters: FilterArg := NoFilters, order: string := "id", desc: bool := false)
      returns (r: Result<seq<Record>>)
      modifies FilterObjects(filters)
      ensures SanitizedInPlace(filters, table.columns)
      ensures r == match FiltersOutcome(filters, old(DictContents(filters)), table.columns)
        case Failure(e) => Failure(e)
        case Success(f) => Success(FindAll(table.rows, table.columns, f, order, desc))
    {
      var checked := CheckFilters(filters);
      if checked.Failure? {
        return Failure(checked.error);
      }
      r := Success(FindAll(table.rows, table.columns, checked.value, order, desc));
    }

    /** `count_by_filters`: the number of matches. */
    method CountByFilters(filters: FilterArg := NoFilters) returns (r: Result<nat>)
      modifies FilterObjects(filters)
      ensures SanitizedInPlace(filters, table.columns)
      ensures r == match FiltersOutcome(filters, old(DictContents(filters)), table.columns)
        case Failure(e) => Failure(e)
        case Success(f) => Success(|FilterBy(table.rows, f)|)
    {
      var checked := CheckFilters(filters);
      if checked.Failure? {
        return Failure(checked.error);
      }
      r := Success(|FilterBy(table.rows, checked.value)|);
    }

    /**
     * `create`: `model(**payload)` from the encoded schema, stored with an id
     * from the counter unless the payload carries one.
     */
    method Create(objIn: map<string, Value>) returns (r: Result<Entity>)
      requires table.Valid()
      modifies table
      ensures table.Valid()
      ensures var row := RowFrom(objIn, table.columns);
        match AssignId(old(table.rows), old(table.nextId), row["id"])
        case Failure(e) =>
          r == Failure(e) && table.rows == old(table.rows) && table.nextId == old(table.nextId)
        case Success(ids) =>
          && r.Success? && fresh(r.value)
          && r.value.attrs == row["id" := Int(ids.0)]
          && table.rows == old(table.rows) + [r.value.attrs]
          && table.nextId == ids.1
    {
      var attrs := RowFrom(objIn, table.columns);
      var newObj := new Entity(attrs);
      assert RowFrom(attrs, table.columns) == attrs;
      var outcome := table.Insert(newObj);
      if outcome.Failure? {
        return Failure(outcome.error);
      }
      ghost var stored := newObj.attrs;
      assert stored.Keys == attrs.Keys;
      r := Success(newObj);
    }

    /**
     * `update`: overwrite the object's fields that the payload names, then store
     * the object over the row it was loaded from (the row with its id on entry).
     */
    method Update(dbObj: Entity, objIn: UpdatePayload) returns (r: Result<Entity>)
      requires table.Valid()
      modifies table, dbObj
      ensures table.Valid()
      ensures var merged := Merged(old(dbObj.attrs), UpdateData(objIn));
        var id := Key(old(dbObj.attrs), "id");
        var row := RowFrom(merged, table.columns);
        if !HasId(old(table.rows), id) then
          && r == Failure(StaleDataError(StaleUpdateMessage(table.name)))
          && dbObj.attrs == merged && table.rows == old(table.rows) && table.nextId == old(table.nextId)
        else match ChangeId(old(table.rows), old(table.nextId), id, row["id"])
          case Failure(e) =>
            r == Failure(e) && dbObj.attrs == merged && table.rows == old(table.rows) && table.nextId == old(table.nextId)
          case Success(counter) =>
            && r == Success(dbObj)
            && dbObj.attrs == merged + row
            && table.rows == ReplaceRow(old(table.rows), id, row)
            && table.nextId == counter
    {
      var id := Key(dbObj.attrs, "id");
      ApplyUpdate(dbObj, UpdateData(objIn));
      var outcome := table.Save(dbObj, id);
      if outcome.Failure? {
        return Failure(outcome.error);
      }
      r := Success(dbObj);
    }

    /** `delete`: the object's row is removed; the commit's result is `None`. */
    method Delete(obj: Entity)
      requires table.Valid()
      modifies table
      ensures table.Valid()
      ensures table.rows == RemoveRow(old(table.rows), Key(obj.attrs, "id"))
      ensures table.nextId == old(table.nextId)
    {
      table.Delete(obj);
    }
  }
}
