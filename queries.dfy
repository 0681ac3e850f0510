/**
 * The query chains both repositories build (`filter_by`, then `order_by` when
 * the field is known, then `offset`/`limit`, `all`, `first` or `count`), the
 * update-merge rule, and what they guarantee.
 */
module Queries {
  import opened Wrappers
  import opened Orm
  import opened Pagination

  /** `query.filter_by(**filters)` ordered by `order` when the model has it: the rows `all()` returns. */
  function FindAll(rows: seq<Record>, columns: Columns, filters: map<string, Value>, order: string, desc: bool): seq<Record>
  {
    Ordered(FilterBy(rows, filters), columns, order, desc)
  }

  /**
   * The ordered matches are the matching rows, each as often as the table holds
   * it; sorted when `order` names a model attribute, in table order otherwise.
   */
  lemma FindAllMatches(rows: seq<Record>, columns: Columns, filters: map<string, Value>, order: string, desc: bool)
    ensures multiset(FindAll(rows, columns, filters, order, desc)) == multiset(FilterBy(rows, filters))
    ensures |FindAll(rows, columns, filters, order, desc)| == |FilterBy(rows, filters)|
    ensures forall x :: x in FindAll(rows, columns, filters, order, desc) <==> x in rows && Matches(x, filters)
    ensures order in columns ==> SortedBy(FindAll(rows, columns, filters, order, desc), order, desc)
    ensures order !in columns ==> FindAll(rows, columns, filters, order, desc) == FilterBy(rows, filters)
  {
    FilterByMembers(rows, filters);
    var all := FindAll(rows, columns, filters, order, desc);
    assert |multiset(all)| == |multiset(FilterBy(rows, filters))|;
    forall x
      ensures x in all <==> x in FilterBy(rows, filters)
    {
      assert x in all <==> x in multiset(all);
      assert x in FilterBy(rows, filters) <==> x in multiset(FilterBy(rows, filters));
    }
  }

  /** Under `desc(order)` the first row holds the greatest value of `order` among all matches. */
  lemma DescendingFirstIsGreatest(rows: seq<Record>, columns: Columns, filters: map<string, Value>, order: string, x: Record)
    requires order in columns
    requires x in rows && Matches(x, filters)
    ensures |FindAll(rows, columns, filters, order, true)| > 0
    ensures ValueLe(Key(x, order), Key(FindAll(rows, columns, filters, order, true)[0], order))
  {
    FindAllMatches(rows, columns, filters, order, true);
    var all := FindAll(rows, columns, filters, order, true);
    var k :| 0 <= k < |all| && all[k] == x;
    if k > 0 {
      assert InOrder(all[0], all[k], order, true);
    } else {
      ValueLeTotal(Key(x, order), Key(x, order));
    }
  }

  /** In ascending order the first row holds the smallest value of `order` among all matches. */
  lemma AscendingFirstIsLeast(rows: seq<Record>, columns: Columns, filters: map<string, Value>, order: string, x: Record)
    requires order in columns
    requires x in rows && Matches(x, filters)
    ensures |FindAll(rows, columns, filters, order, false)| > 0
    ensures ValueLe(Key(FindAll(rows, columns, filters, order, false)[0], order), Key(x, order))
  {
    FindAllMatches(rows, columns, filters, order, false);
    var all := FindAll(rows, columns, filters, order, false);
    var k :| 0 <= k < |all| && all[k] == x;
    if k > 0 {
      assert InOrder(all[0], all[k], order, false);
    } else {
      ValueLeTotal(Key(x, order), Key(x, order));
    }
  }

  /**
   * `find_by_filters_paginated`: the window `[offset, offset + size)` of the
   * ordered matches, and the number of all matches.
   */
  function Paginated(rows: seq<Record>, columns: Columns, filters: map<string, Value>, params: Params, order: string, desc: bool): PaginationResult<Record>
  {
    PaginationResult(Window(FindAll(rows, columns, filters, order, desc), GetOffset(params), params.size), |FilterBy(rows, filters)|)
  }

  /**
   * A page holds `size` items while enough matches remain, the rest on the page
   * where they run out, none past it; its count ignores the window.
   */
  lemma PaginatedSizes(rows: seq<Record>, columns: Columns, filters: map<string, Value>, params: Params, order: string, desc: bool)
    ensures var n := |FilterBy(rows, filters)|;
      var result := Paginated(rows, columns, filters, params, order, desc);
      && result.count == n
      && |result.items| == (if GetOffset(params) >= n then 0
                            else if GetOffset(params) + params.size <= n then params.size
                            else n - GetOffset(params))
      && forall i :: 0 <= i < |result.items| ==>
           result.items[i] == FindAll(rows, columns, filters, order, desc)[GetOffset(params) + i]
  {
    FindAllMatches(rows, columns, filters, order, desc);
  }

  /** Fifteen matches in pages of ten: ten items on page one, five on page two, a count of fifteen on both. */
  lemma FifteenMatchesInPagesOfTen(rows: seq<Record>, columns: Columns, filters: map<string, Value>, order: string, desc: bool)
    requires |FilterBy(rows, filters)| == 15
    ensures |Paginated(rows, columns, filters, Params(1, 10), order, desc).items| == 10
    ensures |Paginated(rows, columns, filters, Params(2, 10), order, desc).items| == 5
    ensures Paginated(rows, columns, filters, Params(1, 10), order, desc).count == 15
    ensures Paginated(rows, columns, filters, Params(2, 10), order, desc).count == 15
  {
    PaginatedSizes(rows, columns, filters, Params(1, 10), order, desc);
    PaginatedSizes(rows, columns, filters, Params(2, 10), order, desc);
  }

  /** Adjacent windows join into one. */
  lemma {:induction false} WindowsAdjoin(s: seq<Record>, off: nat, n: nat, m: nat)
    ensures Window(s, off, n) + Window(s, off + n, m) == Window(s, off, n + m)
  {
    var left, right, whole := Window(s, off, n), Window(s, off + n, m), Window(s, off, n + m);
    assert |left + right| == |whole|;
    forall i | 0 <= i < |whole|
      ensures (left + right)[i] == whole[i]
    {
      if i < |left| {
      } else {
        assert (left + right)[i] == right[i - |left|];
        assert |left| == n;
      }
    }
  }

  /** Pages 1 to `k` of the ordered matches, one after the other. */
  function PagesUpTo(s: seq<Record>, size: Positive, k: nat): seq<Record>
  {
    if k == 0 then [] else PagesUpTo(s, size, k - 1) + Window(s, GetOffset(Params(k, size)), size)
  }

  /** The first `k` pages are exactly the first `k * size` rows: no row is skipped or repeated. */
  lemma {:induction false} PagesTile(s: seq<Record>, size: Positive, k: nat)
    ensures PagesUpTo(s, size, k) == Window(s, 0, k * size)
  {
    if k > 0 {
      PagesTile(s, size, k - 1);
      assert GetOffset(Params(k, size)) == (k - 1) * size;
      WindowsAdjoin(s, 0, (k - 1) * size, size);
      assert (k - 1) * size + size == k * size;
    }
  }

  /** Enough pages hold every ordered match once, in order. */
  lemma PagesCoverAll(s: seq<Record>, size: Positive, k: nat)
    requires k * size >= |s|
    ensures PagesUpTo(s, size, k) == s
  {
    PagesTile(s, size, k);
    if |s| > 0 {
      assert Window(s, 0, k * size) == s[0..];
    }
  }

  /** When no row matches, `filter_by` returns nothing. */
  lemma {:induction false} NoneMatch(rows: seq<Record>, filters: map<string, Value>)
    requires forall x :: x in rows ==> !Matches(x, filters)
    ensures FilterBy(rows, filters) == []
  {
    if |rows| > 0 {
      assert rows[0] in rows;
      NoneMatch(rows[1..], filters);
    }
  }

  /** No row of a table without id `id` matches the filter `{'id': id}`. */
  lemma NoMatchForAbsentId(rows: seq<Record>, id: Value)
    requires !HasId(rows, id)
    ensures FilterBy(rows, map["id" := id]) == []
  {
    forall x | x in rows
      ensures !Matches(x, map["id" := id])
    {
      var i :| 0 <= i < |rows| && rows[i] == x;
      assert Key(rows[i], "id") != id;
    }
    NoneMatch(rows, map["id" := id]);
  }

  /** `get_one_by_filters()` with no filters is the table's first row, or `None` for an empty table. */
  lemma FirstWithoutFilters(rows: seq<Record>)
    ensures First(FilterBy(rows, map[])) == if |rows| == 0 then None else Some(rows[0])
  {
    FilterByNothing(rows);
  }

  /** A row appended with a fresh id is what `first()` returns for `{'id': id}` afterwards, and the only match. */
  lemma FindInserted(rows: seq<Record>, row: Record)
    requires "id" in row && !HasId(rows, row["id"])
    ensures FilterBy(rows + [row], map["id" := row["id"]]) == [row]
    ensures First(FilterBy(rows + [row], map["id" := row["id"]])) == Some(row)
  {
    FilterByAppend(rows, [row], map["id" := row["id"]]);
    NoMatchForAbsentId(rows, row["id"]);
    assert FilterBy([row], map["id" := row["id"]]) == [row] + FilterBy([row][1..], map["id" := row["id"]]);
  }

  /**
   * The row `create` stores under the id `AssignId` chose is the one row
   * `get_one_by_filters({'id': id})` finds afterwards.
   */
  lemma CreateThenFind(rows: seq<Record>, nextId: int, row: Record, ids: (int, int))
    requires "id" in row && AssignId(rows, nextId, row["id"]) == Success(ids)
    ensures FilterBy(rows + [row["id" := Int(ids.0)]], map["id" := Int(ids.0)]) == [row["id" := Int(ids.0)]]
    ensures First(FilterBy(rows + [row["id" := Int(ids.0)]], map["id" := Int(ids.0)])) == Some(row["id" := Int(ids.0)])
  {
    FindInserted(rows, row["id" := Int(ids.0)]);
  }

  /** After the row with id `id` is removed, `count_by_filters({'id': id})` is 0. */
  lemma CountAfterRemove(rows: seq<Record>, columns: Columns, nextId: int, id: Value)
    requires WellFormed(rows, columns, nextId)
    ensures |FilterBy(RemoveRow(rows, id), map["id" := id])| == 0
  {
    RemoveRowKeeps(rows, columns, nextId, id);
    var rest := RemoveRow(rows, id);
    forall x | x in rest
      ensures !Matches(x, map["id" := id])
    {
      assert Key(x, "id") != id;
    }
    NoneMatch(rest, map["id" := id]);
  }

  /** In a well-formed table at most one row matches a filter on the id. */
  lemma {:induction false} CountById(rows: seq<Record>, columns: Columns, nextId: int, id: Value)
    requires WellFormed(rows, columns, nextId)
    ensures |FilterBy(rows, map["id" := id])| <= 1
  {
    if |rows| > 0 {
      var tail := rows[1..];
      assert WellFormed(tail, columns, nextId) by {
        forall i, j | 0 <= i < j < |tail|
          ensures Key(tail[i], "id") != Key(tail[j], "id")
        {
          assert tail[i] == rows[i + 1] && tail[j] == rows[j + 1];
        }
      }
      CountById(tail, columns, nextId, id);
      if Matches(rows[0], map["id" := id]) {
        forall x | x in tail
          ensures !Matches(x, map["id" := id])
        {
          var i :| 0 <= i < |tail| && tail[i] == x;
          assert rows[i + 1] == x;
          assert Key(rows[0], "id") != Key(rows[i + 1], "id");
        }
        NoneMatch(tail, map["id" := id]);
      }
    }
  }

  /**
   * The update-merge rule: a field of the object takes the payload's value when
   * the payload has that key; every other field keeps its value, and payload
   * keys that are no field of the object have no effect.
   */
  function Merged(attrs: Record, data: map<string, Value>): (r: Record)
    ensures r.Keys == attrs.Keys
    ensures forall f :: f in r ==> r[f] == if f in data then data[f] else attrs[f]
  {
    map f | f in attrs :: if f in data then data[f] else attrs[f]
  }

  /** Only the payload's keys that are fields of the object matter, and merging twice changes nothing more. */
  lemma MergedIgnoresUnknownKeys(attrs: Record, data: map<string, Value>)
    ensures Merged(attrs, data) == Merged(attrs, map k | k in data && k in attrs :: data[k])
    ensures Merged(Merged(attrs, data), data) == Merged(attrs, data)
  {
  }

  /**
   * The `obj_in` of `update`: a raw dict, used as it is, or an update schema,
   * given by the fields the caller set (`obj_in.dict(exclude_unset=True)`).
   */
  datatype UpdatePayload = UpdateDict(data: map<string, Value>) | UpdateSchema(setFields: map<string, Value>)

  /** `update_data`: the mapping the merge reads. */
  function UpdateData(objIn: UpdatePayload): map<string, Value>
  {
    match objIn
    case UpdateDict(data) => data
    case UpdateSchema(setFields) => setFields
  }

  /**
   * `for field in obj_data: if field in update_data: setattr(db_obj, field, ...)`:
   * overwrite, in place, the object's fields that the payload names.
   */
  method ApplyUpdate(dbObj: Entity, updateData: map<string, Value>)
    modifies dbObj
    ensures dbObj.attrs == Merged(old(dbObj.attrs), updateData)
  {
    var objData := dbObj.attrs.Keys;
    ghost var original := dbObj.attrs;
    var remaining := objData;
    while remaining != {}
      invariant remaining <= objData
      invariant dbObj.attrs.Keys == original.Keys
      invariant forall f :: f in original ==>
        dbObj.attrs[f] == if f in updateData && f !in remaining then updateData[f] else original[f]
      decreases remaining
    {
      var field :| field in remaining;
      if field in updateData {
        dbObj.attrs := dbObj.attrs[field := updateData[field]];
      }
      remaining := remaining - {field};
    }
  }
}
