/**
 * `CSVExporter`: renders a list of pydantic model instances as "CSV" text, a
 * header line of field titles followed by one line per item; values are joined
 * by the separator with no quoting or escaping.
 */
module CsvExporter {
  import opened Wrappers
  import opened Text

  /** A field of the exported model: its name and its `title`, if one was given. */
  datatype Field = Field(name: string, title: Option<string>)

  /** A value of `item.dict()`; `Other` carries the text `str(value)` gives for any other type. */
  datatype FieldValue = NoneValue | StrValue(s: string) | IntValue(i: int) | BoolValue(b: bool) | Other(text: string)

  /** An item passed to the exporter: whether it is an instance of the exporter's model, and its values in field order. */
  datatype Item = Item(isModelInstance: bool, values: seq<FieldValue>)

  /** The response `to_csv_streaming_response` builds. */
  datatype StreamingResponse = StreamingResponse(body: string, mediaType: string, contentDisposition: string)

  const DefaultSeparator := ";"
  const NewLine := "\n"
  const CsvMediaType := "text/csv"

  /** The exception the source raises for a foreign item is never imported, so raising it is a `NameError`. */
  const ForeignItemError := NameError("ModelExportValidationError")

  /** A column title: the field's title when it is a non-empty string, else the field name. */
  function HeaderOf(f: Field): (h: string)
    ensures f.title.Some? && f.title.value != "" ==> h == f.title.value
    ensures f.title.None? || f.title.value == "" ==> h == f.name
  {
    if f.title.Some? && f.title.value != "" then f.title.value else f.name
  }

  /** The column titles, one per field, in field order. */
  function Headers(fields: seq<Field>): (r: seq<string>)
    ensures |r| == |fields|
    ensures forall i :: 0 <= i < |fields| ==> r[i] == HeaderOf(fields[i])
  {
    seq(|fields|, i requires 0 <= i < |fields| => HeaderOf(fields[i]))
  }

  /** A cell: `None` is empty, text stays as it is, anything else is `str(value)`. */
  function Render(v: FieldValue): string
  {
    match v
    case NoneValue => ""
    case StrValue(s) => s
    case IntValue(i) => IntToString(i)
    case BoolValue(b) => if b then "True" else "False"
    case Other(t) => t
  }

  /** The cells of one item, in its value order. */
  function Cells(item: Item): (r: seq<string>)
    ensures |r| == |item.values|
    ensures forall i :: 0 <= i < |r| ==> r[i] == Render(item.values[i])
  {
    seq(|item.values|, i requires 0 <= i < |item.values| => Render(item.values[i]))
  }

  /** The line of one item: its cells joined by the separator. */
  function Row(item: Item, sep: string): string
  {
    Join(Cells(item), sep)
  }

  /** The lines of all items, in data order. */
  function Rows(items: seq<Item>, sep: string): (r: seq<string>)
    ensures |r| == |items|
    ensures forall i :: 0 <= i < |r| ==> r[i] == Row(items[i], sep)
  {
    seq(|items|, i requires 0 <= i < |items| => Row(items[i], sep))
  }

  /**
   * The whole export: the header line and the item lines joined by newlines,
   * or the error when some item is not an instance of the model.
   */
  function CsvText(fields: seq<Field>, items: seq<Item>, sep: string): (r: Result<string>)
    ensures r.Failure? <==> exists i :: 0 <= i < |items| && !items[i].isModelInstance
    ensures r.Failure? ==> r.error == ForeignItemError
  {
    if exists i :: 0 <= i < |items| && !items[i].isModelInstance then Failure(ForeignItemError)
    else Success(Join([Join(Headers(fields), sep)] + Rows(items, sep), NewLine))
  }

  /** Empty data exports the header line alone, with no trailing newline. */
  lemma EmptyDataIsHeaderOnly(fields: seq<Field>, sep: string)
    ensures CsvText(fields, [], sep) == Success(Join(Headers(fields), sep))
  {
    assert [Join(Headers(fields), sep)] + Rows([], sep) == [Join(Headers(fields), sep)];
  }

  /** When no title or cell holds a newline, splitting the export at newlines gives back the header line and one line per item. */
  lemma LinesRecovered(fields: seq<Field>, items: seq<Item>, sep: string)
    requires forall i :: 0 <= i < |items| ==> items[i].isModelInstance
    requires '\n' !in Join(Headers(fields), sep)
    requires forall i :: 0 <= i < |items| ==> '\n' !in Row(items[i], sep)
    ensures CsvText(fields, items, sep).Success?
    ensures Split(CsvText(fields, items, sep).value, '\n') == [Join(Headers(fields), sep)] + Rows(items, sep)
  {
    var lines := [Join(Headers(fields), sep)] + Rows(items, sep);
    forall k | 0 <= k < |lines|
      ensures '\n' !in lines[k]
    {
      if k > 0 {
        assert lines[k] == Row(items[k - 1], sep);
      }
    }
    SplitJoin(lines, '\n');
  }

  /** With a one-character separator that no cell holds, splitting an item's line at it gives back the cells. */
  lemma CellsRecovered(item: Item, c: char)
    requires |item.values| >= 1
    requires forall i :: 0 <= i < |item.values| ==> c !in Render(item.values[i])
    ensures Split(Row(item, [c]), c) == Cells(item)
  {
    SplitJoin(Cells(item), c);
  }

  /** Nothing is escaped: a cell holding the separator reads back as two cells. */
  lemma SeparatorInCellIsNotEscaped()
    ensures Split(Row(Item(true, [StrValue("a;b")]), DefaultSeparator), ';') == ["a", "b"]
  {
    var item := Item(true, [StrValue("a;b")]);
    assert Cells(item) == ["a;b"];
    assert Row(item, DefaultSeparator) == "a;b";
    var empty := Split("", ';');
    assert empty == [""];
    assert "b"[1..] == "" && ['b'] + empty[0] == "b" && empty[1..] == [];
    var b := Split("b", ';');
    assert b == ["b"];
    assert ";b"[1..] == "b";
    var semiB := Split(";b", ';');
    assert semiB == ["", "b"];
    assert "a;b"[1..] == ";b" && ['a'] + semiB[0] == "a" && semiB[1..] == ["b"];
  }

  /** The filename with ".csv" appended unless ".csv" already occurs anywhere in it. */
  function NormalizeFilename(filename: string): (r: string)
    ensures Contains(r, ".csv")
    ensures Contains(filename, ".csv") ==> r == filename
    ensures !Contains(filename, ".csv") ==> r == filename + ".csv"
  {
    if Contains(filename, ".csv") then filename
    else
      ContainsSuffix(filename, ".csv");
      filename + ".csv"
  }

  /** Normalising twice is normalising once. */
  lemma NormalizeFilenameIdempotent(filename: string)
    ensures NormalizeFilename(NormalizeFilename(filename)) == NormalizeFilename(filename)
  {
  }

  /** The `Content-Disposition` header for a download of `filename`. */
  function ContentDisposition(filename: string): (r: string)
    ensures StartsWith(r, "attachment; filename=")
    ensures r[|"attachment; filename="|..] == NormalizeFilename(filename)
  {
    "attachment; filename=" + NormalizeFilename(filename)
  }

  /** An exporter for one model, given by its fields, with its separator. */
  class CSVExporter {
    const fields: seq<Field>
    const sep: string

    constructor (fields: seq<Field>, separator: string := DefaultSeparator)
      ensures this.fields == fields && sep == separator
    {
      this.fields := fields;
      sep := separator;
    }

    /** The header line: every field's title, in field order, joined by the separator. */
    method GenerateHeaders() returns (line: string)
      ensures line == Join(Headers(fields), sep)
    {
      var headers: seq<string> := [];
      var i := 0;
      while i < |fields|
        invariant 0 <= i <= |fields|
        invariant headers == Headers(fields[..i])
      {
        if fields[i].title.Some? && fields[i].title.value != "" {
          headers := headers + [fields[i].title.value];
        } else {
          headers := headers + [fields[i].name];
        }
        i := i + 1;
      }
      assert fields[..i] == fields;
      line := Join(headers, sep);
    }

    /** `to_csv`: the header, then for each item a newline and its cells joined by the separator; a foreign item aborts the export. */
    method ToCsv(data: seq<Item>) returns (r: Result<string>)
      ensures r == CsvText(fields, data, sep)
    {
      var header := GenerateHeaders();
      var csv := header;
      var i := 0;
      while i < |data|
        invariant 0 <= i <= |data|
        invariant forall k :: 0 <= k < i ==> data[k].isModelInstance
        invariant csv == Join([header] + Rows(data[..i], sep), NewLine)
      {
        var item := data[i];
        if !item.isModelInstance {
          return Failure(ForeignItemError);
        }
        var itemData: seq<string> := [];
        csv := csv + NewLine;
        var j := 0;
        while j < |item.values|
          invariant 0 <= j <= |item.values|
          invariant itemData == Cells(Item(item.isModelInstance, item.values[..j]))
        {
          var value := item.values[j];
          var text: string;
          match value {
            case NoneValue => text := "";
            case StrValue(s) => text := s;
            case IntValue(n) => text := IntToString(n);
            case BoolValue(b) => text := if b then "True" else "False";
            case Other(t) => text := t;
          }
          itemData := itemData + [if text != "" then text else ""];
          j := j + 1;
        }
        assert item.values[..j] == item.values;
        csv := csv + Join(itemData, sep);
        assert Rows(data[..i + 1], sep) == Rows(data[..i], sep) + [Row(item, sep)];
        assert [header] + Rows(data[..i + 1], sep) == ([header] + Rows(data[..i], sep)) + [Row(item, sep)];
        JoinAppend([header] + Rows(data[..i], sep), Row(item, sep), NewLine);
        i := i + 1;
      }
      assert data[..i] == data;
      r := Success(csv);
    }

    /** `to_csv_streaming_response`: the export as a `text/csv` body with a download header for the normalised filename. */
    method ToCsvStreamingResponse(data: seq<Item>, filename: string := "export.csv") returns (r: Result<StreamingResponse>)
      ensures CsvText(fields, data, sep).Failure? ==> r == Failure(ForeignItemError)
      ensures CsvText(fields, data, sep).Success? ==>
        r == Success(StreamingResponse(CsvText(fields, data, sep).value, CsvMediaType, ContentDisposition(filename)))
    {
      var stream := ToCsv(data);
      if stream.Failure? {
        return Failure(stream.error);
      }
      var name := filename;
      if !Contains(name, ".csv") {
        name := name + ".csv";
      }
      r := Success(StreamingResponse(stream.value, CsvMediaType, "attachment; filename=" + name));
    }
  }
}
