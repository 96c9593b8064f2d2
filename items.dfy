/**
 * The column extractor `get_items` of src/csv_parser.rs and the `CostItem` record it builds.
 * src/main.rs holds copies of both that are identical apart from visibility and field-init
 * shorthand.
 *
 * The header line is cut with a plain `split(',')`; the tag and amount columns are the first
 * header pieces whose trimmed text equals the requested names. Every following line goes through
 * `parse_csv`; its tag is the trimmed tag column and its amount the trimmed amount column, with
 * every `,` replaced by `.`, read as a decimal. The decimal reader (`Decimal::from_str`) is a
 * parameter of the model; the source's panics are errors.
 */
module Items {
  import opened Common
  import opened CsvParser

  const Dot: byte := 0x2E

  /** One expense: its category tag and its amount (an exact decimal, so a real). */
  datatype CostItem = CostItem(tag: seq<byte>, amount: real)

  /** The ways `get_items` panics. */
  datatype ItemError =
    | NoHeader                    // `lines[0]` of an empty list
    | MissingColumn(name: seq<byte>) // `position(..).unwrap()` found no such header
    | Malformed(error: CsvError)  // `parse_csv` panicked on a row
    | FieldMissing                // `parts[index]` beyond the row's columns
    | InvalidAmount(text: seq<byte>) // `parse().expect(..)` on text that is not a decimal

  /** ASCII white space, standing for the Unicode white space `str::trim` removes. */
  predicate IsSpace(b: byte)
  {
    b == 0x20 || 0x09 <= b <= 0x0D
  }

  /** `trim_start`: drops the leading white space. */
  function TrimStart(s: seq<byte>): (r: seq<byte>)
  {
    if s != [] && IsSpace(s[0]) then TrimStart(s[1..]) else s
  }

  /** `trim_end`: drops the trailing white space. */
  function TrimEnd(s: seq<byte>): (r: seq<byte>)
  {
    if s != [] && IsSpace(s[|s| - 1]) then TrimEnd(s[..|s| - 1]) else s
  }

  /** `trim_start` keeps a suffix that does not start with white space and cuts only white space. */
  lemma {:induction false} TrimStartSuffix(s: seq<byte>)
    ensures var r := TrimStart(s);
      && |r| <= |s| && r == s[|s| - |r|..]
      && (r == [] || !IsSpace(r[0]))
      && forall i :: 0 <= i < |s| - |r| ==> IsSpace(s[i])
  {
    if s != [] && IsSpace(s[0]) {
      var t := s[1..];
      TrimStartSuffix(t);
      var r := TrimStart(t);
      assert TrimStart(s) == r;
      assert s[|s| - |r|..] == t[|t| - |r|..];
      forall i | 0 <= i < |s| - |r|
        ensures IsSpace(s[i])
      {
        if i > 0 {
          assert s[i] == t[i - 1];
        }
      }
    }
  }

  /** `trim_end` keeps a prefix that does not end with white space and cuts only white space. */
  lemma {:induction false} TrimEndPrefix(s: seq<byte>)
    ensures var r := TrimEnd(s);
      && |r| <= |s| && r == s[..|r|]
      && (r == [] || !IsSpace(r[|r| - 1]))
      && forall i :: |r| <= i < |s| ==> IsSpace(s[i])
  {
    if s != [] && IsSpace(s[|s| - 1]) {
      TrimEndPrefix(s[..|s| - 1]);
    }
  }

  /** `str::trim`: the slice left when white space is removed from both ends. */
  function Trim(s: seq<byte>): (r: seq<byte>)
    ensures |r| <= |s|
  {
    TrimStartSuffix(s);
    TrimEndPrefix(TrimStart(s));
    TrimEnd(TrimStart(s))
  }

  /**
   * What trimming keeps: a slice `s[i..j]` that neither starts nor ends with white space, with only
   * white space cut off on either side.
   */
  lemma TrimSlice(s: seq<byte>)
    ensures exists i, j ::
      && 0 <= i <= j <= |s| && Trim(s) == s[i..j]
      && (forall k :: 0 <= k < i ==> IsSpace(s[k]))
      && (forall k :: j <= k < |s| ==> IsSpace(s[k]))
    ensures Trim(s) == [] || (!IsSpace(Trim(s)[0]) && !IsSpace(Trim(s)[|Trim(s)| - 1]))
  {
    var t := TrimStart(s);
    TrimStartSuffix(s);
    TrimEndPrefix(t);
    var i := |s| - |t|;
    var j := i + |TrimEnd(t)|;
    assert Trim(s) == s[i..j];
    assert forall k :: j <= k < |s| ==> s[k] == t[k - i];
    if Trim(s) != [] {
      assert Trim(s)[0] == t[0];
    }
  }

  /** Trimming twice is trimming once. */
  lemma TrimIdempotent(s: seq<byte>)
    ensures Trim(Trim(s)) == Trim(s)
  {
    var t := Trim(s);
    TrimSlice(s);
    if t != [] {
      assert TrimStart(t) == t;
      assert TrimEnd(t) == t;
    }
  }

  /** `str::replace(',', ".")`: every comma becomes a dot, every other byte stays. */
  function DotForComma(s: seq<byte>): (r: seq<byte>)
    ensures |r| == |s| && Comma !in r
    ensures forall i :: 0 <= i < |s| ==> r[i] == (if s[i] == Comma then Dot else s[i])
  {
    seq(|s|, i requires 0 <= i < |s| => if s[i] == Comma then Dot else s[i])
  }

  /**
   * `iter().position(|x| x.trim() == name)`: the first piece whose trimmed text is `name`.
   */
  function Position(pieces: seq<seq<byte>>, name: seq<byte>): (r: Option<nat>)
    ensures r.Some? ==> r.value < |pieces| && Trim(pieces[r.value]) == name
    ensures r.Some? ==> forall j :: 0 <= j < r.value ==> Trim(pieces[j]) != name
    ensures r.None? ==> forall j :: 0 <= j < |pieces| ==> Trim(pieces[j]) != name
  {
    if pieces == [] then None
    else if Trim(pieces[0]) == name then Some(0)
    else match Position(pieces[1..], name)
      case None => None
      case Some(i) => Some(i + 1)
  }

  /** The body of the row loop: the item one line yields, or the panic it causes. */
  function ItemOf(line: seq<Grapheme>, tagIndex: nat, amountIndex: nat,
                  parseAmount: seq<byte> -> Option<real>, close: QuoteClose): (r: Result<CostItem, ItemError>)
    ensures Parse(line, close).Err? ==> r == Err(Malformed(Parse(line, close).error))
    ensures Parse(line, close).Ok? && (tagIndex >= |Parse(line, close).value| || amountIndex >= |Parse(line, close).value|)
      ==> r == Err(FieldMissing)
    ensures r.Ok? ==> r.value.tag == Trim(r.value.tag)
    ensures r.Err? ==> r.error.Malformed? || r.error.FieldMissing? || r.error.InvalidAmount?
  {
    match Parse(line, close)
    case Err(e) => Err(Malformed(e))
    case Ok(parts) =>
      if tagIndex >= |parts| || amountIndex >= |parts| then Err(FieldMissing)
      else
        ParseWithin(line, close);
        var text := Concat(line);
        var tag := Trim(ColumnText(text, parts[tagIndex]));
        var raw := DotForComma(Trim(ColumnText(text, parts[amountIndex])));
        TrimIdempotent(ColumnText(text, parts[tagIndex]));
        match parseAmount(raw)
        case None => Err(InvalidAmount(ColumnText(text, parts[amountIndex])))
        case Some(amount) => Ok(CostItem(tag, amount))
  }

  /** The row loop: the items of `rows` in order, stopping at the first row that panics. */
  function Rows(rows: seq<seq<Grapheme>>, tagIndex: nat, amountIndex: nat,
                parseAmount: seq<byte> -> Option<real>, close: QuoteClose): (r: Result<seq<CostItem>, ItemError>)
    ensures r.Ok? ==> |r.value| == |rows|
  {
    if rows == [] then Ok([])
    else match Rows(rows[..|rows| - 1], tagIndex, amountIndex, parseAmount, close)
      case Err(e) => Err(e)
      case Ok(items) =>
        match ItemOf(rows[|rows| - 1], tagIndex, amountIndex, parseAmount, close)
        case Err(e) => Err(e)
        case Ok(item) => Ok(items + [item])
  }

  /** `get_items` as a whole. */
  function Extract(lines: seq<seq<Grapheme>>, tagName: seq<byte>, amountName: seq<byte>,
                   parseAmount: seq<byte> -> Option<real>, close: QuoteClose): (r: Result<seq<CostItem>, ItemError>)
    ensures lines == [] ==> r == Err(NoHeader)
  {
    if lines == [] then Err(NoHeader)
    else
      var header := Split(Concat(lines[0]), Comma);
      match Position(header, tagName)
      case None => Err(MissingColumn(tagName))
      case Some(tagIndex) =>
        match Position(header, amountName)
        case None => Err(MissingColumn(amountName))
        case Some(amountIndex) => Rows(lines[1..], tagIndex, amountIndex, parseAmount, close)
  }

  /**
   * The row loop succeeds exactly when every row yields an item, and then it holds one item per
   * row, in the rows' order.
   */
  lemma {:induction false} RowsOk(rows: seq<seq<Grapheme>>, tagIndex: nat, amountIndex: nat,
                                  parseAmount: seq<byte> -> Option<real>, close: QuoteClose)
    ensures Rows(rows, tagIndex, amountIndex, parseAmount, close).Ok?
      <==> forall k :: 0 <= k < |rows| ==> ItemOf(rows[k], tagIndex, amountIndex, parseAmount, close).Ok?
    ensures Rows(rows, tagIndex, amountIndex, parseAmount, close).Ok? ==>
      var items := Rows(rows, tagIndex, amountIndex, parseAmount, close).value;
      && |items| == |rows|
      && forall k :: 0 <= k < |rows| ==> ItemOf(rows[k], tagIndex, amountIndex, parseAmount, close) == Ok(items[k])
  {
    if rows != [] {
      var front, last := rows[..|rows| - 1], rows[|rows| - 1];
      FrontLast(rows);
      assert forall k :: 0 <= k < |front| ==> front[k] == rows[k];
      RowsOk(front, tagIndex, amountIndex, parseAmount, close);
      if Rows(front, tagIndex, amountIndex, parseAmount, close).Ok? {
        RowsSnoc(front, last, tagIndex, amountIndex, parseAmount, close);
      } else {
        var k :| 0 <= k < |front| && ItemOf(front[k], tagIndex, amountIndex, parseAmount, close).Err?;
        assert ItemOf(rows[k], tagIndex, amountIndex, parseAmount, close).Err?;
      }
    }
  }

  /** A failing row loop reports the error of its first failing row. */
  lemma {:induction false} RowsErr(rows: seq<seq<Grapheme>>, tagIndex: nat, amountIndex: nat,
                                   parseAmount: seq<byte> -> Option<real>, close: QuoteClose)
    requires Rows(rows, tagIndex, amountIndex, parseAmount, close).Err?
    ensures exists k ::
      && 0 <= k < |rows|
      && ItemOf(rows[k], tagIndex, amountIndex, parseAmount, close).Err?
      && (forall j :: 0 <= j < k ==> ItemOf(rows[j], tagIndex, amountIndex, parseAmount, close).Ok?)
      && Rows(rows, tagIndex, amountIndex, parseAmount, close).error == ItemOf(rows[k], tagIndex, amountIndex, parseAmount, close).error
  {
    var front := rows[..|rows| - 1];
    assert forall k :: 0 <= k < |front| ==> front[k] == rows[k];
    if Rows(front, tagIndex, amountIndex, parseAmount, close).Err? {
      RowsErr(front, tagIndex, amountIndex, parseAmount, close);
    } else {
      RowsOk(front, tagIndex, amountIndex, parseAmount, close);
      assert ItemOf(rows[|rows| - 1], tagIndex, amountIndex, parseAmount, close).Err?;
    }
  }

  /** One more row: its item is appended, or its panic ends the loop. */
  lemma RowsSnoc(rows: seq<seq<Grapheme>>, row: seq<Grapheme>, tagIndex: nat, amountIndex: nat,
                 parseAmount: seq<byte> -> Option<real>, close: QuoteClose)
    requires Rows(rows, tagIndex, amountIndex, parseAmount, close).Ok?
    ensures
      var item := ItemOf(row, tagIndex, amountIndex, parseAmount, close);
      Rows(rows + [row], tagIndex, amountIndex, parseAmount, close)
        == if item.Ok? then Ok(Rows(rows, tagIndex, amountIndex, parseAmount, close).value + [item.value]) else Err(item.error)
  {
    assert (rows + [row])[..|rows|] == rows;
  }

  /** Once a row has panicked, the rows after it are never read. */
  lemma {:induction false} RowsErrPersists(rows: seq<seq<Grapheme>>, n: nat, tagIndex: nat, amountIndex: nat,
                                           parseAmount: seq<byte> -> Option<real>, close: QuoteClose)
    requires n <= |rows| && Rows(rows[..n], tagIndex, amountIndex, parseAmount, close).Err?
    ensures Rows(rows, tagIndex, amountIndex, parseAmount, close) == Rows(rows[..n], tagIndex, amountIndex, parseAmount, close)
  {
    if n < |rows| {
      var front := rows[..|rows| - 1];
      assert front[..n] == rows[..n];
      RowsErrPersists(front, n, tagIndex, amountIndex, parseAmount, close);
    } else {
      assert rows[..n] == rows;
    }
  }

  /**
   * A successful `get_items` yields one item per line after the header, in order, each read with
   * the first header positions of the two names.
   */
  lemma ExtractOk(lines: seq<seq<Grapheme>>, tagName: seq<byte>, amountName: seq<byte>,
                  parseAmount: seq<byte> -> Option<real>, close: QuoteClose)
    requires Extract(lines, tagName, amountName, parseAmount, close).Ok?
    ensures lines != []
    ensures
      var header := Split(Concat(lines[0]), Comma);
      var items := Extract(lines, tagName, amountName, parseAmount, close).value;
      && Position(header, tagName).Some? && Position(header, amountName).Some?
      && |items| == |lines| - 1
      && forall k :: 1 <= k < |lines| ==>
           ItemOf(lines[k], Position(header, tagName).value, Position(header, amountName).value, parseAmount, close) == Ok(items[k - 1])
  {
    var header := Split(Concat(lines[0]), Comma);
    var rows := lines[1..];
    RowsOk(rows, Position(header, tagName).value, Position(header, amountName).value, parseAmount, close);
    assert forall k :: 1 <= k < |lines| ==> lines[k] == rows[k - 1];
  }

  /**
   * `get_items` fails for a missing tag column exactly when no piece of the header trims to the
   * tag name: the rows never cause that error.
   */
  lemma MissingHeaderName(lines: seq<seq<Grapheme>>, tagName: seq<byte>, amountName: seq<byte>,
                          parseAmount: seq<byte> -> Option<real>, close: QuoteClose)
    requires lines != []
    ensures Extract(lines, tagName, amountName, parseAmount, close) == Err(MissingColumn(tagName))
      <==> forall piece <- Split(Concat(lines[0]), Comma) :: Trim(piece) != tagName
  {
    var header := Split(Concat(lines[0]), Comma);
    var tagIndex, amountIndex := Position(header, tagName), Position(header, amountName);
    if tagIndex.Some? {
      assert header[tagIndex.value] in header;
      if amountIndex.Some? {
        var rows := Rows(lines[1..], tagIndex.value, amountIndex.value, parseAmount, close);
        if rows.Err? {
          RowsErr(lines[1..], tagIndex.value, amountIndex.value, parseAmount, close);
        }
      }
    }
  }

  /**
   * On a quote-free row that does not start with a comma, and in which every comma is a cluster
   * of its own, the tag is the trimmed piece that `split(',')` would give at the tag position.
   */
  lemma PlainRowTag(line: seq<Grapheme>, tagIndex: nat, amountIndex: nat,
                    parseAmount: seq<byte> -> Option<real>, close: QuoteClose)
    requires PlainSegments(line) && (line == [] || !Is(line[0], Comma))
    requires ItemOf(line, tagIndex, amountIndex, parseAmount, close).Ok?
    ensures tagIndex < |Split(Concat(line), Comma)|
    ensures ItemOf(line, tagIndex, amountIndex, parseAmount, close).value.tag == Trim(Split(Concat(line), Comma)[tagIndex])
  {
    PlainLineIsSplit(line, close);
    var parts := Parse(line, close).value;
    var pieces := Split(Concat(line), Comma);
    assert Texts(Concat(line), parts)[tagIndex] == ColumnText(Concat(line), parts[tagIndex]);
    assert DropLastEmpty(pieces) == pieces[..|DropLastEmpty(pieces)|];
  }

  /** The body of the row loop of `get_items`. */
  method RowItem(line: seq<Grapheme>, ti: nat, ai: nat, parseAmount: seq<byte> -> Option<real>, close: QuoteClose)
    returns (item: Result<CostItem, ItemError>)
    ensures item == ItemOf(line, ti, ai, parseAmount, close)
  {
    var parts := ParseCsv(line, close);
    if parts.Err? {
      item := Err(Malformed(parts.error));
    } else if ti >= |parts.value| || ai >= |parts.value| {
      item := Err(FieldMissing);
    } else {
      var cols := parts.value;
      ParseWithin(line, close);
      var text := Concat(line);
      var amount := parseAmount(DotForComma(Trim(ColumnText(text, cols[ai]))));
      if amount.None? {
        item := Err(InvalidAmount(ColumnText(text, cols[ai])));
      } else {
        item := Ok(CostItem(Trim(ColumnText(text, cols[ti])), amount.value));
      }
    }
  }

  /** One more row of a prefix that has succeeded: its item, if it has one, is appended. */
  lemma RowsPrefixStep(rows: seq<seq<Grapheme>>, i: nat, tagIndex: nat, amountIndex: nat,
                       parseAmount: seq<byte> -> Option<real>, close: QuoteClose)
    requires i < |rows| && Rows(rows[..i], tagIndex, amountIndex, parseAmount, close).Ok?
    requires ItemOf(rows[i], tagIndex, amountIndex, parseAmount, close).Ok?
    ensures Rows(rows[..i + 1], tagIndex, amountIndex, parseAmount, close)
      == Ok(Rows(rows[..i], tagIndex, amountIndex, parseAmount, close).value
            + [ItemOf(rows[i], tagIndex, amountIndex, parseAmount, close).value])
  {
    TakeSnoc(rows, i);
    RowsSnoc(rows[..i], rows[i], tagIndex, amountIndex, parseAmount, close);
  }

  /** A row that panics after a prefix that has succeeded ends the loop with its error. */
  lemma RowsPrefixErr(rows: seq<seq<Grapheme>>, i: nat, tagIndex: nat, amountIndex: nat,
                      parseAmount: seq<byte> -> Option<real>, close: QuoteClose)
    requires i < |rows| && Rows(rows[..i], tagIndex, amountIndex, parseAmount, close).Ok?
    requires ItemOf(rows[i], tagIndex, amountIndex, parseAmount, close).Err?
    ensures Rows(rows, tagIndex, amountIndex, parseAmount, close)
      == Err(ItemOf(rows[i], tagIndex, amountIndex, parseAmount, close).error)
  {
    TakeSnoc(rows, i);
    RowsSnoc(rows[..i], rows[i], tagIndex, amountIndex, parseAmount, close);
    RowsErrPersists(rows, i + 1, tagIndex, amountIndex, parseAmount, close);
  }

  /** The row loop of `get_items`: `for line in lines.iter().skip(1)`, pushing each item. */
  method ReadRows(rows: seq<seq<Grapheme>>, ti: nat, ai: nat, parseAmount: seq<byte> -> Option<real>, close: QuoteClose)
    returns (r: Result<seq<CostItem>, ItemError>)
    ensures r == Rows(rows, ti, ai, parseAmount, close)
  {
    var items := [];
    for i := 0 to |rows|
      invariant Rows(rows[..i], ti, ai, parseAmount, close) == Ok(items)
    {
      var item := RowItem(rows[i], ti, ai, parseAmount, close);
      if item.Err? {
        RowsPrefixErr(rows, i, ti, ai, parseAmount, close);
        return Err(item.error);
      }
      RowsPrefixStep(rows, i, ti, ai, parseAmount, close);
      items := items + [item.value];
    }
    assert rows[..|rows|] == rows;
    return Ok(items);
  }

  /** `get_items`: the header lookup, then the row loop. */
  method GetItems(lines: seq<seq<Grapheme>>, tagName: seq<byte>, amountName: seq<byte>,
                  parseAmount: seq<byte> -> Option<real>, close: QuoteClose)
    returns (r: Result<seq<CostItem>, ItemError>)
    ensures r == Extract(lines, tagName, amountName, parseAmount, close)
  {
    if lines == [] {
      return Err(NoHeader);
    }
    var header := Split(Concat(lines[0]), Comma);
    var tagIndex := Position(header, tagName);
    if tagIndex.None? {
      return Err(MissingColumn(tagName));
    }
    var amountIndex := Position(header, amountName);
    if amountIndex.None? {
      return Err(MissingColumn(amountName));
    }
    r := ReadRows(lines[1..], tagIndex.value, amountIndex.value, parseAmount, close);
  }
}
