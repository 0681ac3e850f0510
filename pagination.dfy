/**
 * The pagination value objects: the page/size parameters and their row offset,
 * the unknown-field check that guards custom parameters, and the page of
 * results.
 */
module Pagination {
  import opened Wrappers
  import opened Text

  /** The integers pydantic's `ge=1` constraint admits. */
  type Positive = x: int | x >= 1 witness 1

  /** `Params`: a page number and a page size. */
  datatype Params = Params(page: Positive, size: Positive)

  /** The query-string defaults: page 1, 20 rows per page. */
  const DefaultParams: Params := Params(1, 20)

  /**
   * Building `Params(page=..., size=...)`: pydantic rejects a page or a size
   * below 1, naming every field that fails in declaration order.
   */
  function NewParams(page: int := 1, size: int := 20): (r: Result<Params>)
    ensures r.Success? <==> page >= 1 && size >= 1
    ensures r.Success? ==> r.value.page == page && r.value.size == size
    ensures r.Failure? ==> r.error.ValidationError? && ("page" in r.error.fields <==> page < 1)
    ensures r.Failure? ==> ("size" in r.error.fields <==> size < 1)
  {
    if page >= 1 && size >= 1 then Success(Params(page, size))
    else Failure(ValidationError((if page < 1 then ["page"] else []) + (if size < 1 then ["size"] else [])))
  }

  /** `Params.get_offset`: the number of rows the pages before this one hold. */
  function GetOffset(p: Params): (r: nat)
    ensures r == (p.page - 1) * p.size
    ensures p.page == 1 ==> r == 0
  {
    (p.page - 1) * p.size
  }

  /** The next page starts exactly `size` rows after this one. */
  lemma OffsetsTile(p: Params)
    ensures GetOffset(Params(p.page + 1, p.size)) == GetOffset(p) + p.size
  {
  }

  /**
   * The page/size record the session-factory repository takes; its defaults
   * are taken to be those of `Params`.
   */
  datatype PageQuery = PageQuery(page: Positive, size: Positive) {
    function GetOffset(): (r: nat)
      ensures r == (page - 1) * size
    {
      (page - 1) * size
    }
  }

  const DefaultPageQuery: PageQuery := PageQuery(1, 20)

  /** A pydantic model class: its name, whether it derives from `BaseModel`, and each field's annotation. */
  datatype ModelClass = ModelClass(name: string, isBaseModel: bool, annotations: map<string, string>)

  /** The message naming the unknown fields: sorted, joined with ", ", "field" or "fields". */
  function UnknownFieldsMessage(unknown: set<string>): string
  {
    var incorrect := SortedList(unknown);
    "Unknown field" + (if |incorrect| > 1 then "s" else "") + " " + Join(incorrect, ", ")
  }

  /**
   * `_create_params(cls, fields)`: each supplied field paired with its annotation
   * and value, or a `ValueError` when `cls` is no pydantic model or a supplied
   * name is not one of its fields.
   */
  function CreateParams<V>(cls: ModelClass, fields: map<string, V>): (r: Result<map<string, (string, V)>>)
    ensures !cls.isBaseModel ==> r == Failure(ValueError(cls.name + " must be subclass of BaseModel"))
    ensures cls.isBaseModel && !(fields.Keys <= cls.annotations.Keys) ==>
      r == Failure(ValueError(UnknownFieldsMessage(fields.Keys - cls.annotations.Keys)))
    ensures cls.isBaseModel && fields.Keys <= cls.annotations.Keys ==>
      && r.Success?
      && r.value.Keys == fields.Keys
      && forall k :: k in r.value ==> r.value[k] == (cls.annotations[k], fields[k])
  {
    if !cls.isBaseModel then Failure(ValueError(cls.name + " must be subclass of BaseModel"))
    else if !(fields.Keys <= cls.annotations.Keys) then
      Failure(ValueError(UnknownFieldsMessage(fields.Keys - cls.annotations.Keys)))
    else Success(map k | k in fields :: (cls.annotations[k], fields[k]))
  }

  /** One unknown name is reported as "Unknown field <name>". */
  lemma UnknownFieldMessageSingle(name: string)
    ensures UnknownFieldsMessage({name}) == "Unknown field " + name
  {
    var incorrect := SortedList({name});
    assert |incorrect| == 1;
    assert incorrect[0] in {name};
  }

  /** Two unknown names are reported in ascending order after "Unknown fields". */
  lemma UnknownFieldsMessagePair(a: string, b: string)
    requires StrLe(a, b) && a != b
    ensures UnknownFieldsMessage({a, b}) == "Unknown fields " + a + ", " + b
  {
    if StrLe(b, a) {
      StrLeAntisymmetric(a, b);
    }
    var incorrect := SortedList({a, b});
    assert |{a, b}| == 2;
    assert incorrect[0] in {a, b} && incorrect[1] in {a, b};
    assert incorrect == [a, b];
    assert Join(incorrect, ", ") == a + ", " + b;
  }

  /** `PaginationResult`: one window of items and the number of all matches. */
  datatype PaginationResult<T> = PaginationResult(items: seq<T>, count: nat)

  /** `Page`: one window of items with its page number, page size and total. */
  datatype Page<T> = Page(page: Positive, size: Positive, total: nat, items: seq<T>)

  /** `Page.create`: page and size copied from the parameters; pydantic rejects a negative total. */
  function CreatePage<T>(items: seq<T>, total: int, page: Positive, size: Positive): (r: Result<Page<T>>)
    ensures r.Success? <==> total >= 0
    ensures r.Success? ==> r.value.page == page && r.value.size == size && r.value.total == total && r.value.items == items
    ensures r.Failure? ==> r.error == ValidationError(["total"])
  {
    if total >= 0 then Success(Page(page, size, total, items)) else Failure(ValidationError(["total"]))
  }
}
