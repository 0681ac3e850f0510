/**
 * The object-relational layer the repositories drive, as an in-memory table:
 * column values, rows, the query primitives the repositories chain
 * (`filter_by`, `order_by`/`desc`, `offset`/`limit`, `first`, `count`), the
 * caller's filter dictionary, mapped objects, and the table itself with its
 * auto-increment id counter.
 */
module Orm {
  import opened Wrappers
  import opened Text

  /** A column value as the database stores it: NULL, an integer (booleans included) or text. */
  datatype Value = Null | Int(i: int) | Str(s: string)

  /** SQL ordering of values: NULL first, then numbers, then text. */
  predicate ValueLe(a: Value, b: Value)
  {
    match (a, b)
    case (Null, _) => true
    case (_, Null) => false
    case (Int(x), Int(y)) => x <= y
    case (Int(_), Str(_)) => true
    case (Str(_), Int(_)) => false
    case (Str(x), Str(y)) => StrLe(x, y)
  }

  lemma ValueLeTotal(a: Value, b: Value)
    ensures ValueLe(a, b) || ValueLe(b, a)
  {
    if a.Str? && b.Str? {
      StrLeTotal(a.s, b.s);
    }
  }

  lemma ValueLeTransitive(a: Value, b: Value, c: Value)
    requires ValueLe(a, b) && ValueLe(b, c)
    ensures ValueLe(a, c)
  {
    if a.Str? && b.Str? && c.Str? {
      StrLeTransitive(a.s, b.s, c.s);
    }
  }

  /** A row, and the attribute values of a mapped object: column name to value. */
  type Record = map<string, Value>

  /**
   * The attribute names of the mapped model class: what `hasattr(model, key)` and
   * `getattr(model, key)` find on it.
   */
  type Columns = set<string>

  /** `filter_by(**filters)` keeps a row when every filter key equals the row's value. */
  predicate Matches(r: Record, filters: map<string, Value>)
  {
    forall k :: k in filters ==> k in r && r[k] == filters[k]
  }

  /** `query(model).filter_by(**filters)`: the matching rows, in table order. */
  function FilterBy(rows: seq<Record>, filters: map<string, Value>): seq<Record>
  {
    if |rows| == 0 then []
    else (if Matches(rows[0], filters) then [rows[0]] else []) + FilterBy(rows[1..], filters)
  }

  /** `filter_by` keeps exactly the matching rows, each as often as the table holds it. */
  lemma {:induction false} FilterByMembers(rows: seq<Record>, filters: map<string, Value>)
    ensures |FilterBy(rows, filters)| <= |rows|
    ensures forall x :: x in FilterBy(rows, filters) <==> x in rows && Matches(x, filters)
    ensures multiset(FilterBy(rows, filters)) <= multiset(rows)
  {
    if |rows| > 0 {
      var tail := FilterBy(rows[1..], filters);
      FilterByMembers(rows[1..], filters);
      assert rows == [rows[0]] + rows[1..];
      assert multiset(rows) == multiset{rows[0]} + multiset(rows[1..]);
      if Matches(rows[0], filters) {
        assert FilterBy(rows, filters) == [rows[0]] + tail;
        assert multiset([rows[0]] + tail) == multiset{rows[0]} + multiset(tail);
      } else {
        assert FilterBy(rows, filters) == tail;
      }
    }
  }

  /** The first row `filter_by` returns is the matching row of lowest position. */
  lemma {:induction false} FilterByFirst(rows: seq<Record>, filters: map<string, Value>, i: int)
    requires 0 <= i < |rows| && Matches(rows[i], filters)
    requires forall j :: 0 <= j < i ==> !Matches(rows[j], filters)
    ensures |FilterBy(rows, filters)| > 0 && FilterBy(rows, filters)[0] == rows[i]
  {
    if i > 0 {
      FilterByFirst(rows[1..], filters, i - 1);
    }
  }

  /** The positions of the rows among the first `n` that match. */
  function MatchPositions(rows: seq<Record>, filters: map<string, Value>, n: nat): set<int>
    requires n <= |rows|
  {
    set i | 0 <= i < n && Matches(rows[i], filters)
  }

  /** `filter_by` returns one row for each matching position of the table: its `count()`. */
  lemma FilterByCount(rows: seq<Record>, filters: map<string, Value>)
    ensures |FilterBy(rows, filters)| == |MatchPositions(rows, filters, |rows|)|
  {
    FilterByCountPrefix(rows, filters, |rows|);
    assert rows[..|rows|] == rows;
  }

  lemma {:induction false} FilterByCountPrefix(rows: seq<Record>, filters: map<string, Value>, n: nat)
    requires n <= |rows|
    ensures |FilterBy(rows[..n], filters)| == |MatchPositions(rows, filters, n)|
  {
    if n == 0 {
      assert MatchPositions(rows, filters, 0) == {};
    } else {
      FilterByCountPrefix(rows, filters, n - 1);
      assert rows[..n] == rows[..n - 1] + [rows[n - 1]];
      FilterByAppend(rows[..n - 1], [rows[n - 1]], filters);
      FilterBySingle(rows[n - 1], filters);
      MatchPositionsStep(rows, filters, n);
    }
  }

  lemma FilterBySingle(x: Record, filters: map<string, Value>)
    ensures |FilterBy([x], filters)| == if Matches(x, filters) then 1 else 0
  {
    assert [x][1..] == [];
  }

  lemma MatchPositionsStep(rows: seq<Record>, filters: map<string, Value>, n: nat)
    requires 0 < n <= |rows|
    ensures |MatchPositions(rows, filters, n)| ==
      |MatchPositions(rows, filters, n - 1)| + if Matches(rows[n - 1], filters) then 1 else 0
  {
    var before := MatchPositions(rows, filters, n - 1);
    var now := MatchPositions(rows, filters, n);
    var last: set<int> := if Matches(rows[n - 1], filters) then {n - 1} else {};
    forall i | i in now
      ensures i in before + last
    {
      if i < n - 1 {
        assert i in before;
      }
    }
    forall i | i in before + last
      ensures i in now
    {
    }
    assert now == before + last;
    assert before * last == {};
  }

  /** With no filters, `filter_by()` keeps every row. */
  lemma {:induction false} FilterByNothing(rows: seq<Record>)
    ensures FilterBy(rows, map[]) == rows
  {
    if |rows| > 0 {
      FilterByNothing(rows[1..]);
      assert rows == [rows[0]] + rows[1..];
    }
  }

  /** Filtering the rows appended at the end filters them separately. */
  lemma {:induction false} FilterByAppend(a: seq<Record>, b: seq<Record>, filters: map<string, Value>)
    ensures FilterBy(a + b, filters) == FilterBy(a, filters) + FilterBy(b, filters)
  {
    if |a| == 0 {
      assert a + b == b;
    } else {
      var ab := a + b;
      assert ab[0] == a[0];
      assert ab[1..] == a[1..] + b;
      FilterByAppend(a[1..], b, filters);
      var head: seq<Record> := if Matches(a[0], filters) then [a[0]] else [];
      assert FilterBy(ab, filters) == head + FilterBy(a[1..] + b, filters);
      assert FilterBy(a, filters) == head + FilterBy(a[1..], filters);
      assert head + (FilterBy(a[1..], filters) + FilterBy(b, filters))
          == (head + FilterBy(a[1..], filters)) + FilterBy(b, filters);
    }
  }

  /** The value a row holds in `field`; NULL when it has none. */
  function Key(r: Record, field: string): Value
  {
    if field in r then r[field] else Null
  }

  /**
   * `a` may come before `b` under `order_by(field)` (ascending) or
   * `order_by(desc(field))` (descending).
   */
  predicate InOrder(a: Record, b: Record, field: string, desc: bool)
  {
    if desc then ValueLe(Key(b, field), Key(a, field)) else ValueLe(Key(a, field), Key(b, field))
  }

  lemma InOrderTotal(a: Record, b: Record, field: string, desc: bool)
    ensures InOrder(a, b, field, desc) || InOrder(b, a, field, desc)
  {
    ValueLeTotal(Key(a, field), Key(b, field));
  }

  lemma InOrderTransitive(a: Record, b: Record, c: Record, field: string, desc: bool)
    requires InOrder(a, b, field, desc) && InOrder(b, c, field, desc)
    ensures InOrder(a, c, field, desc)
  {
    if desc {
      ValueLeTransitive(Key(c, field), Key(b, field), Key(a, field));
    } else {
      ValueLeTransitive(Key(a, field), Key(b, field), Key(c, field));
    }
  }

  /** Every row may come before every later one. */
  predicate SortedBy(s: seq<Record>, field: string, desc: bool)
  {
    forall i, j :: 0 <= i < j < |s| ==> InOrder(s[i], s[j], field, desc)
  }

  /** Places `x` before the first row of sorted `s` that it may precede. */
  function Insert(x: Record, s: seq<Record>, field: string, desc: bool): (r: seq<Record>)
    requires SortedBy(s, field, desc)
    ensures SortedBy(r, field, desc)
    ensures multiset(r) == multiset(s) + multiset{x}
  {
    if |s| == 0 then [x]
    else if InOrder(x, s[0], field, desc) then
      InsertFront(x, s, field, desc);
      [x] + s
    else
      var rest := Insert(x, s[1..], field, desc);
      InsertBehind(x, s, rest, field, desc);
      [s[0]] + rest
  }

  lemma InsertFront(x: Record, s: seq<Record>, field: string, desc: bool)
    requires SortedBy(s, field, desc)
    requires |s| > 0 && InOrder(x, s[0], field, desc)
    ensures SortedBy([x] + s, field, desc)
  {
    var t := [x] + s;
    forall i, j | 0 <= i < j < |t|
      ensures InOrder(t[i], t[j], field, desc)
    {
      assert t[j] == s[j - 1];
      if i == 0 {
        if j > 1 {
          InOrderTransitive(x, s[0], s[j - 1], field, desc);
        }
      } else {
        assert t[i] == s[i - 1];
      }
    }
  }

  lemma InsertBehind(x: Record, s: seq<Record>, rest: seq<Record>, field: string, desc: bool)
    requires SortedBy(s, field, desc)
    requires |s| > 0 && !InOrder(x, s[0], field, desc)
    requires SortedBy(rest, field, desc)
    requires multiset(rest) == multiset(s[1..]) + multiset{x}
    ensures SortedBy([s[0]] + rest, field, desc)
    ensures multiset([s[0]] + rest) == multiset(s) + multiset{x}
  {
    forall j | 0 <= j < |rest|
      ensures InOrder(s[0], rest[j], field, desc)
    {
      assert rest[j] in multiset(rest);
      if rest[j] == x {
        InOrderTotal(x, s[0], field, desc);
      } else {
        assert rest[j] in multiset(s[1..]);
        var k :| 0 <= k < |s[1..]| && s[1..][k] == rest[j];
        assert s[k + 1] == rest[j];
      }
    }
    var t := [s[0]] + rest;
    forall i, j | 0 <= i < j < |t|
      ensures InOrder(t[i], t[j], field, desc)
    {
      if i > 0 {
        assert t[i] == rest[i - 1] && t[j] == rest[j - 1];
      } else {
        assert t[j] == rest[j - 1];
      }
    }
    assert s == [s[0]] + s[1..];
  }

  /**
   * `order_by(field)` or `order_by(desc(field))`: a stable insertion sort, so rows
   * that tie keep their table order.
   */
  function SortBy(rows: seq<Record>, field: string, desc: bool): (r: seq<Record>)
    ensures SortedBy(r, field, desc)
    ensures multiset(r) == multiset(rows)
  {
    if |rows| == 0 then []
    else
      assert rows == [rows[0]] + rows[1..];
      Insert(rows[0], SortBy(rows[1..], field, desc), field, desc)
  }

  /** Ordering is applied only when `order` names an attribute of the model; otherwise it is skipped. */
  function Ordered(rows: seq<Record>, columns: Columns, order: string, desc: bool): seq<Record>
  {
    if order in columns then SortBy(rows, order, desc) else rows
  }

  /** `offset(offset).limit(limit)`: the rows at positions `offset` up to `offset + limit`. */
  function Window(rows: seq<Record>, offset: nat, limit: nat): (r: seq<Record>)
    ensures |r| == if offset >= |rows| then 0 else if offset + limit <= |rows| then limit else |rows| - offset
    ensures forall i :: 0 <= i < |r| ==> r[i] == rows[offset + i]
  {
    if offset >= |rows| then []
    else if offset + limit <= |rows| then rows[offset..offset + limit]
    else rows[offset..]
  }

  /** `first()`: the first row, or `None` when there is none. */
  function First(rows: seq<Record>): (r: Option<Record>)
    ensures r.None? <==> |rows| == 0
    ensures r.Some? ==> r.value == rows[0]
  {
    if |rows| == 0 then None else Some(rows[0])
  }

  /** The caller's filter dictionary, which sanitising changes in place. */
  class FilterDict {
    var items: map<string, Value>

    constructor (items: map<string, Value>)
      ensures this.items == items
    {
      this.items := items;
    }
  }

  /**
   * The `filters` argument of a repository query: omitted (`None`), a dict the
   * caller owns, or a value of some other type, given by `repr(type(value))`
   * and its truthiness.
   */
  datatype FilterArg = NoFilters | DictFilters(dict: FilterDict) | OtherFilters(typeRepr: string, truthy: bool)

  /** The objects a query may change: the caller's dict, when one is passed. */
  function FilterObjects(f: FilterArg): set<object>
  {
    if f.DictFilters? then {f.dict} else {}
  }

  /** The entries of the caller's dict, or none. */
  function DictContents(f: FilterArg): map<string, Value>
    reads FilterObjects(f)
  {
    if f.DictFilters? then f.dict.items else map[]
  }

  /** The filters with the keys that name no model attribute removed, values kept. */
  function Sanitized(filters: map<string, Value>, columns: Columns): (r: map<string, Value>)
    ensures r.Keys == filters.Keys * columns
    ensures forall k :: k in r ==> r[k] == filters[k]
  {
    map k | k in filters && k in columns :: filters[k]
  }

  /** The caller's dict, when one was passed, now holds only the keys that name model attributes. */
  twostate predicate SanitizedInPlace(f: FilterArg, columns: Columns)
    reads FilterObjects(f)
  {
    f.DictFilters? ==> f.dict.items == Sanitized(old(f.dict.items), columns)
  }

  /** Python's truthiness of the `filters` argument, given the dict's entries. */
  function Truthy(f: FilterArg, contents: map<string, Value>): bool
  {
    match f
    case NoFilters => false
    case DictFilters(_) => |contents| > 0
    case OtherFilters(_, truthy) => truthy
  }

  /** The message of the `ValueError` raised when `filters` is not a dict. */
  function NotADictMessage(f: FilterArg): string
  {
    "filters should be a dict, received " +
    match f
    case NoFilters => "<class 'NoneType'>"
    case DictFilters(_) => "<class 'dict'>"
    case OtherFilters(t, _) => t
  }

  /**
   * `sanitize(filters) if filters else {}`: the filters a query applies, or the
   * error it raises, given the entries of the caller's dict on entry.
   */
  function FiltersOutcome(f: FilterArg, contents: map<string, Value>, columns: Columns): (r: Result<map<string, Value>>)
    ensures r.Failure? <==> f.OtherFilters? && f.truthy
    ensures r.Failure? ==> r.error == ValueError(NotADictMessage(f))
    ensures r.Success? ==> r.value.Keys <= columns
    ensures !Truthy(f, contents) ==> r == Success(map[])
    ensures f.DictFilters? ==> r == Success(Sanitized(contents, columns))
  {
    if !Truthy(f, contents) then Success(map[])
    else if f.DictFilters? then Success(Sanitized(contents, columns))
    else Failure(ValueError(NotADictMessage(f)))
  }

  /** A mapped object (a model instance) whose attributes the repositories set in place. */
  class Entity {
    var attrs: Record

    constructor (attrs: Record)
      ensures this.attrs == attrs
    {
      this.attrs := attrs;
    }
  }

  /** The row a model instance `model(**payload)` starts from: every column, NULL where unset. */
  function RowFrom(attrs: Record, columns: Columns): (r: Record)
    ensures r.Keys == columns
    ensures forall c :: c in columns ==> r[c] == Key(attrs, c)
  {
    map c | c in columns :: Key(attrs, c)
  }

  /** Every row holds every column and an integer id below the counter. */
  ghost predicate RowsShaped(rows: seq<Record>, columns: Columns, nextId: int)
  {
    forall i :: 0 <= i < |rows| ==> rows[i].Keys == columns && "id" in rows[i] && rows[i]["id"].Int? && rows[i]["id"].i < nextId
  }

  /** No two rows share an id. */
  ghost predicate IdsDistinct(rows: seq<Record>)
  {
    forall i, j :: 0 <= i < j < |rows| ==> Key(rows[i], "id") != Key(rows[j], "id")
  }

  /** The invariant of a table: ids are distinct integers below the counter. */
  ghost predicate WellFormed(rows: seq<Record>, columns: Columns, nextId: int)
  {
    "id" in columns && nextId >= 1 && RowsShaped(rows, columns, nextId) && IdsDistinct(rows)
  }

  /** Some row of `rows` has id `id`. */
  predicate HasId(rows: seq<Record>, id: Value)
  {
    exists i :: 0 <= i < |rows| && Key(rows[i], "id") == id
  }

  /** The id an insert stores and the counter after it, or the error the database raises. */
  function AssignId(rows: seq<Record>, nextId: int, id: Value): (r: Result<(int, int)>)
    ensures r.Success? ==> r.value.1 > r.value.0 && r.value.1 >= nextId && !HasId(rows, Int(r.value.0))
    ensures r.Failure? ==> r.error.IntegrityError?
    ensures id.Null? ==> (r.Success? <==> !HasId(rows, Int(nextId))) && (r.Success? ==> r.value == (nextId, nextId + 1))
    ensures id.Int? ==> (r.Success? <==> !HasId(rows, id)) && (r.Success? ==> r.value.0 == id.i && r.value.1 == Max(id.i + 1, nextId))
    ensures id.Str? ==> r.Failure?
  {
    match id
    case Null =>
      if HasId(rows, Int(nextId)) then Failure(IntegrityError("Duplicate entry for key 'PRIMARY'"))
      else Success((nextId, nextId + 1))
    case Int(i) =>
      if HasId(rows, id) then Failure(IntegrityError("Duplicate entry for key 'PRIMARY'"))
      else Success((i, Max(i + 1, nextId)))
    case Str(_) => Failure(IntegrityError("Incorrect integer value for column 'id'"))
  }

  function Max(a: int, b: int): int
  {
    if a > b then a else b
  }

  /** In a well-formed table an insert without an id always succeeds, taking the counter's value. */
  lemma NullIdTakesCounter(rows: seq<Record>, columns: Columns, nextId: int)
    requires WellFormed(rows, columns, nextId)
    ensures AssignId(rows, nextId, Null) == Success((nextId, nextId + 1))
  {
    forall k | 0 <= k < |rows|
      ensures Key(rows[k], "id") != Int(nextId)
    {
      assert rows[k]["id"].i < nextId;
    }
  }

  /** The rows after the row with id `id` is replaced by `row`. */
  function ReplaceRow(rows: seq<Record>, id: Value, row: Record): (r: seq<Record>)
    ensures |r| == |rows|
    ensures forall i :: 0 <= i < |rows| ==> r[i] == if Key(rows[i], "id") == id then row else rows[i]
  {
    seq(|rows|, i requires 0 <= i < |rows| => if Key(rows[i], "id") == id then row else rows[i])
  }

  /** The rows other than the one with id `id`, in table order. */
  function RemoveRow(rows: seq<Record>, id: Value): seq<Record>
  {
    if |rows| == 0 then []
    else (if Key(rows[0], "id") == id then [] else [rows[0]]) + RemoveRow(rows[1..], id)
  }

  /** Deleting from a table with rows appended deletes from the old rows and then the new ones, so the kept rows stay in table order. */
  lemma {:induction false} RemoveRowAppend(a: seq<Record>, b: seq<Record>, id: Value)
    ensures RemoveRow(a + b, id) == RemoveRow(a, id) + RemoveRow(b, id)
  {
    if |a| > 0 {
      RemoveRowAppend(a[1..], b, id);
      assert (a + b)[1..] == a[1..] + b;
    } else {
      assert a + b == b;
    }
  }

  /** Removing a row keeps exactly the rows with another id. */
  lemma {:induction false} RemoveRowMembers(rows: seq<Record>, id: Value)
    ensures forall x :: x in RemoveRow(rows, id) <==> x in rows && Key(x, "id") != id
  {
    if |rows| > 0 {
      RemoveRowMembers(rows[1..], id);
      assert rows == [rows[0]] + rows[1..];
    }
  }

  /** Removing a row keeps exactly the rows with another id, and keeps the table well formed. */
  lemma {:induction false} RemoveRowKeeps(rows: seq<Record>, columns: Columns, nextId: int, id: Value)
    requires WellFormed(rows, columns, nextId)
    ensures forall x :: x in RemoveRow(rows, id) <==> x in rows && Key(x, "id") != id
    ensures WellFormed(RemoveRow(rows, id), columns, nextId)
  {
    RemoveRowMembers(rows, id);
    if |rows| > 0 {
      TailWellFormed(rows, columns, nextId);
      RemoveRowKeeps(rows[1..], columns, nextId, id);
      var tail := RemoveRow(rows[1..], id);
      if Key(rows[0], "id") != id {
        forall x | x in tail
          ensures Key(x, "id") != Key(rows[0], "id")
        {
          HeadIdUnique(rows, x);
        }
        ConsWellFormed(rows[0], tail, columns, nextId);
        assert RemoveRow(rows, id) == [rows[0]] + tail;
      } else {
        assert RemoveRow(rows, id) == tail;
      }
    }
  }

  lemma TailWellFormed(rows: seq<Record>, columns: Columns, nextId: int)
    requires WellFormed(rows, columns, nextId) && |rows| > 0
    ensures WellFormed(rows[1..], columns, nextId)
  {
    assert forall i :: 0 <= i < |rows[1..]| ==> rows[1..][i] == rows[i + 1];
  }

  lemma HeadIdUnique(rows: seq<Record>, x: Record)
    requires IdsDistinct(rows) && |rows| > 0 && x in rows[1..]
    ensures Key(x, "id") != Key(rows[0], "id")
  {
    var k :| 0 <= k < |rows[1..]| && rows[1..][k] == x;
    assert rows[k + 1] == x;
  }

  lemma ConsWellFormed(r: Record, tail: seq<Record>, columns: Columns, nextId: int)
    requires WellFormed(tail, columns, nextId)
    requires r.Keys == columns && "id" in r && r["id"].Int? && r["id"].i < nextId
    requires forall x :: x in tail ==> Key(x, "id") != Key(r, "id")
    ensures WellFormed([r] + tail, columns, nextId)
  {
    var t := [r] + tail;
    forall i, j | 0 <= i < j < |t|
      ensures Key(t[i], "id") != Key(t[j], "id")
    {
      assert t[j] == tail[j - 1];
      if i > 0 {
        assert t[i] == tail[i - 1];
      } else {
        assert t[j] in tail;
      }
    }
    forall i | 0 <= i < |t|
      ensures t[i].Keys == columns && "id" in t[i] && t[i]["id"].Int? && t[i]["id"].i < nextId
    {
      if i > 0 {
        assert t[i] == tail[i - 1];
      }
    }
  }

  /** When `id` names a row, the counter after the row's id changes to `newId`, or the database's error. */
  function ChangeId(rows: seq<Record>, nextId: int, id: Value, newId: Value): (r: Result<int>)
    ensures r.Success? ==> r.value >= nextId && newId.Int? && newId.i < r.value
    ensures r.Success? && newId != id ==> !HasId(rows, newId)
    ensures newId.Int? ==> (r.Success? <==> newId == id || !HasId(rows, newId))
    ensures r.Success? ==> r.value == Max(newId.i + 1, nextId)
    ensures !newId.Int? ==> r.Failure?
    ensures r.Failure? ==> r.error.IntegrityError?
  {
    if newId == id && newId.Int? then Success(Max(newId.i + 1, nextId))
    else if !newId.Int? then Failure(IntegrityError("Incorrect integer value for column 'id'"))
    else if HasId(rows, newId) then Failure(IntegrityError("Duplicate entry for key 'PRIMARY'"))
    else Success(Max(newId.i + 1, nextId))
  }

  /** Replacing the row with id `id` by a row that keeps the table's shape keeps it well formed. */
  lemma ReplaceRowKeeps(rows: seq<Record>, columns: Columns, nextId: int, id: Value, row: Record, nextId': int)
    requires WellFormed(rows, columns, nextId)
    requires nextId' >= nextId
    requires row.Keys == columns && row["id"].Int? && row["id"].i < nextId'
    requires row["id"] == id || !HasId(rows, row["id"])
    ensures WellFormed(ReplaceRow(rows, id, row), columns, nextId')
  {
    var t := ReplaceRow(rows, id, row);
    forall i, j | 0 <= i < j < |t|
      ensures Key(t[i], "id") != Key(t[j], "id")
    {
      if Key(rows[i], "id") == id && Key(rows[j], "id") == id {
        assert false;
      } else if Key(rows[i], "id") == id && row["id"] != id {
        NoRowHasId(rows, row["id"], j);
      } else if Key(rows[j], "id") == id && row["id"] != id {
        NoRowHasId(rows, row["id"], i);
      }
    }
  }

  lemma NoRowHasId(rows: seq<Record>, id: Value, k: int)
    requires !HasId(rows, id) && 0 <= k < |rows|
    ensures Key(rows[k], "id") != id
  {
  }

  /** The message of the `StaleDataError` an update of a row that is gone raises, naming the table. */
  function StaleUpdateMessage(tableName: string): string
  {
    "UPDATE statement on table '" + tableName + "' expected to update 1 row(s); 0 were matched."
  }

  /**
   * The database table behind a session: its rows in insertion order and the
   * auto-increment counter that assigns ids.
   */
  class Table {
    /** The table's name, `__tablename__` of the model. */
    const name: string
    const columns: Columns
    var rows: seq<Record>
    var nextId: int

    ghost predicate Valid()
      reads this
    {
      WellFormed(rows, columns, nextId)
    }

    constructor (name: string, columns: Columns)
      requires "id" in columns
      ensures Valid() && this.name == name && this.columns == columns && rows == [] && nextId == 1
    {
      this.name := name;
      this.columns := columns;
      rows := [];
      nextId := 1;
    }

    /**
     * `session.add(obj); session.commit(); session.refresh(obj)` for a new object:
     * the row gets an id from the counter unless the object carries one, and the
     * object's attributes are refreshed from the stored row.
     */
    method Insert(obj: Entity) returns (r: Result<()>)
      requires Valid()
      modifies this, obj
      ensures Valid()
      ensures var row := RowFrom(old(obj.attrs), columns);
        match AssignId(old(rows), old(nextId), row["id"])
        case Failure(e) =>
          r == Failure(e) && rows == old(rows) && nextId == old(nextId) && obj.attrs == old(obj.attrs)
        case Success(ids) =>
          && r == Success(())
          && rows == old(rows) + [row["id" := Int(ids.0)]]
          && nextId == ids.1
          && obj.attrs == old(obj.attrs) + row["id" := Int(ids.0)]
    {
      var row := RowFrom(obj.attrs, columns);
      var outcome := AssignId(rows, nextId, row["id"]);
      if outcome.Failure? {
        return Failure(outcome.error);
      }
      var stored := row["id" := Int(outcome.value.0)];
      rows := rows + [stored];
      nextId := outcome.value.1;
      obj.attrs := obj.attrs + stored;
      r := Success(());
    }

    /**
     * `session.add(obj); session.commit(); session.refresh(obj)` for an object
     * loaded with id `id`: its row is rewritten from the object's attributes.
     */
    method Save(obj: Entity, id: Value) returns (r: Result<()>)
      requires Valid()
      modifies this, obj
      ensures Valid()
      ensures var row := RowFrom(old(obj.attrs), columns);
        if !HasId(old(rows), id) then
          r == Failure(StaleDataError(StaleUpdateMessage(name)))
          && rows == old(rows) && nextId == old(nextId) && obj.attrs == old(obj.attrs)
        else match ChangeId(old(rows), old(nextId), id, row["id"])
          case Failure(e) =>
            r == Failure(e) && rows == old(rows) && nextId == old(nextId) && obj.attrs == old(obj.attrs)
          case Success(counter) =>
            && r == Success(())
            && rows == ReplaceRow(old(rows), id, row)
            && nextId == counter
            && obj.attrs == old(obj.attrs) + row
    {
      if !HasId(rows, id) {
        return Failure(StaleDataError(StaleUpdateMessage(name)));
      }
      var row := RowFrom(obj.attrs, columns);
      var outcome := ChangeId(rows, nextId, id, row["id"]);
      if outcome.Failure? {
        return Failure(outcome.error);
      }
      ReplaceRowKeeps(rows, columns, nextId, id, row, outcome.value);
      rows := ReplaceRow(rows, id, row);
      nextId := outcome.value;
      obj.attrs := obj.attrs + row;
      r := Success(());
    }

    /** `session.delete(obj); session.commit()`: the row with the object's id goes away. */
    method Delete(obj: Entity)
      requires Valid()
      modifies this
      ensures Valid()
      ensures rows == RemoveRow(old(rows), Key(obj.attrs, "id")) && nextId == old(nextId)
    {
      RemoveRowKeeps(rows, columns, nextId, Key(obj.attrs, "id"));
      rows := RemoveRow(rows, Key(obj.attrs, "id"));
    }
  }
}
