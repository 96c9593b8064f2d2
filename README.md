# fat_piggy_bank — a Dafny model of its expense comparison core

fat_piggy_bank compares two bank exports of expenses and reports how each category changed.
This project models the core of that program in Dafny and proves properties of the model.

- **`CsvParser`** (`csv_parser.dfy`) models `parse_csv`, the grapheme-by-grapheme, six-state
  line parser. Each column is a byte range of the line. The parser's two panics become errors.
- **`Items`** (`items.dfy`) models `get_items` and the `CostItem` record:
  - the header is cut with `split(',')`;
  - the tag and amount columns are located by their trimmed names;
  - every row after the header is read through `parse_csv`.
- **`Expenses`** (`expenses.dfy`) models `compare_expenses`:
  - one change per baseline item;
  - then the items whose tag is new;
  - then a stable sort, largest amount first.
- **`Tokenizer`** (`tokenizer.dfy`) models the template tokenizer:
  - `{{` opens an expression buffer and `}}` opens a text buffer;
  - other characters are pushed onto the newest buffer.
- **`ParamModel`** (`model.dfy`) models the template `Model`. It holds two dictionaries that are
  updated in place.
- **`Common`** (`common.dfy`) holds bytes, `Option`, `Result` and concatenation.

Where the code works by mutation, the model does too:
- `ParseCsv`, `ReadRows`, `CompareExpenses` and `Tokenize` are loops;
- the token buffers and the template model are classes.

Each loop is proved equal to a left fold, or to a mirror of one, with these roles:
- `Run`/`Parse` for the parser;
- `Rows`/`Extract` for the extractor;
- `Comparison` for the comparison;
- `Scan`/`Tokens` for the tokenizer.

The lemmas state what the source promises about those folds.

## Model

| member | source | states |
|---|---|---|
| CsvParser.ParseCsv | src/csv_parser.rs:55-110 | The loop over the graphemes, the final flush of an open unquoted column and the two panics return exactly `Parse(line)`. |
| CsvParser.QuotedEnd | src/csv_parser.rs:87 | The end offset of a quoted column: `last_pos - last_len` as written, `last_pos` with the intended rule; never past `last_pos`. |
| CsvParser.Advance | src/csv_parser.rs:101-102 | The bookkeeping at the end of every iteration: `last_pos` grows by the grapheme's byte length and `last_len` becomes that length. |
| CsvParser.Step | src/csv_parser.rs:61-102 | One iteration of the six-state machine: it panics exactly on `,` in the initial state (leading separator) and on anything but `,` after a closing quote; otherwise it advances `last_pos` by the grapheme and pushes at most one column, keeping the earlier ones. |
| CsvParser.Steps | src/csv_parser.rs:60-103 | The loop as a left fold of `Step` over the graphemes, stopping at the first panic. |
| CsvParser.Run | src/csv_parser.rs:56-103 | The loop from the initial machine: no columns, `last_pos` and `last_len` zero. |
| CsvParser.Finish | src/csv_parser.rs:105-107 | The flush after the loop: an open unquoted column is pushed up to `last_pos`; in every other state the columns stay as they are. |
| CsvParser.Parse | src/csv_parser.rs:55-110 | `parse_csv` as a whole: the loop, then the flush, or the loop's panic; an empty line has no columns. |
| CsvParser.StepBounded | src/csv_parser.rs:61-102 | One iteration keeps every offset inside the text read so far: `last_len <= last_pos`, the column starts are no later than `last_pos`, and every pushed span lies in the text. |
| CsvParser.StepsBounded | src/csv_parser.rs:60-103 | Any number of iterations keeps the machine bounded, so the unsigned `last_pos - last_len` never underflows. |
| CsvParser.RunBounded | src/csv_parser.rs:56-103 | From the initial state, every reachable machine is bounded. |
| CsvParser.StepsLength | src/csv_parser.rs:101-102 | `last_pos` grows by exactly the byte length of the graphemes consumed. |
| CsvParser.RunLength | src/csv_parser.rs:58-102 | After the loop, `last_pos` is the byte length of the line. |
| CsvParser.ParseWithin | src/csv_parser.rs:55-110 | Every column `parse_csv` returns is a slice `start <= end <= len(line)`, so the slicing never panics. |
| CsvParser.StepsSnoc | src/csv_parser.rs:60-103 | One more grapheme is one more iteration; after a panic nothing more happens. |
| CsvParser.RunSnoc | src/csv_parser.rs:60-103 | The same, from the initial state. |
| CsvParser.StepsAppend | src/csv_parser.rs:60-103 | Running the loop over `a + b` is running it over `a`, then from that machine over `b`, unless `a` already panicked. |
| CsvParser.RunErrPersists | src/csv_parser.rs:63 | A panic on a prefix is the outcome of the whole line. |
| CsvParser.LeadingSeparatorRejected | src/csv_parser.rs:62-63 | A line whose first grapheme is `,` panics with the leading-separator error, whatever follows. |
| CsvParser.EscapedContent | src/csv_parser.rs:67-91 | After an opening quote, quote-free content keeps the machine in `ColumnEscaped` at the content's start, with `last_pos` and `last_len` advanced. |
| CsvParser.OpenQuote | src/csv_parser.rs:62-98 | At a field start (initial or after a comma), `"` moves to `EscapeStart`. |
| CsvParser.QuotedContent | src/csv_parser.rs:64-91 | A quote followed by quote-free content pushes no column and ends in `EscapeStart` (empty content) or `ColumnEscaped` at the content's start. |
| CsvParser.CloseQuote | src/csv_parser.rs:67-89 | The closing quote pushes one column (empty right after the opening quote) and moves to `EscapeEnd`. |
| CsvParser.FieldEnd | src/csv_parser.rs:87 | The end offset of a quoted column lies between the content's start and the closing quote. |
| CsvParser.QuotedField | src/csv_parser.rs:64-91 | `"c"` read at a field start pushes exactly one column, `[p+1, FieldEnd)`, and leaves the machine in `EscapeEnd` after the closing quote. |
| CsvParser.QuotedLineText | src/csv_parser.rs:101-102 | The bytes of a line ending in a quoted field are the prefix, a quote, the content and a quote. |
| CsvParser.RunAppend | src/csv_parser.rs:60-103 | A line with a prefix that does not panic is parsed by continuing from the prefix's machine. |
| CsvParser.UnterminatedQuoteDropped | src/csv_parser.rs:105-107 | A line that ends inside an open quote returns the earlier columns only; the open field is silently dropped. |
| CsvParser.ParseThrough | src/csv_parser.rs:105-109 | Parsing a line is running the loop and then flushing only a pending unquoted column. |
| CsvParser.QuotedLine | src/csv_parser.rs:64-109 | A line that ends with a quoted field returns the prefix's columns plus one column starting right after the opening quote. |
| CsvParser.EmptyQuotedField | src/csv_parser.rs:67-71 | A line ending with `""` at a field start gets exactly one more column, an empty one. |
| CsvParser.QuotedFieldLosesLastGrapheme | src/csv_parser.rs:87 | As written, the column of a quoted field stops before the content's last grapheme: its text is the content without its last cluster. |
| CsvParser.QuotedFieldKeepsContent | src/csv_parser.rs:87 | With the end offset at the closing quote, the column of a quoted field is exactly its content. |
| CsvParser.QuotedFieldCounterexample | src/csv_parser.rs:85-89 | On the line `"ab"`, the code as written returns the column `a`; with the intended end it returns `ab`. |
| CsvParser.ClosedQuoteNeedsSeparator | src/csv_parser.rs:74-77 | A closed quoted field followed by anything other than `,` panics with the after-escape error. |
| CsvParser.DoubledQuoteFails | src/csv_parser.rs:74-88 | `""` inside a quoted field, at any field start, is no escape: the first quote closes the field, the second is text after it, and the line fails with the after-escape error. |
| CsvParser.DoubledQuoteExample | src/csv_parser.rs:74-88 | The line `"a""b"` fails as a whole; no column is returned. |
| CsvParser.Open | src/csv_parser.rs:20 | The piece `split(',')` is still building contains no separator. |
| CsvParser.Closed | src/csv_parser.rs:20 | No finished piece of `split(',')` contains the separator. |
| CsvParser.Split | src/csv_parser.rs:20 | `split(',')` yields at least one piece, none containing a comma. |
| CsvParser.SplitJoin | src/csv_parser.rs:20 | Joining the pieces of `split(',')` with commas gives the text back. |
| CsvParser.SnocSep | src/csv_parser.rs:20 | A separator closes the current piece and starts an empty one. |
| CsvParser.AppendPlain | src/csv_parser.rs:20 | Text without a separator only lengthens the current piece. |
| CsvParser.TextsExtend | src/csv_parser.rs:80 | Column texts do not change when the line is read further. |
| CsvParser.TextsSnoc | src/csv_parser.rs:80 | Pushing a column appends its text. |
| CsvParser.PlainComma | src/csv_parser.rs:78-96 | In a line without quotes, a comma pushes the piece being built, or an empty column after another comma. |
| CsvParser.PlainOther | src/csv_parser.rs:65-98 | In a line without quotes, a non-empty grapheme that holds no comma byte extends the piece being built and pushes no column. |
| CsvParser.PlainGrapheme | src/csv_parser.rs:61-102 | In a line without quotes, a grapheme that is either a comma cluster of its own (not at the start) or a non-empty cluster with no comma byte keeps the columns equal to the finished `split` pieces and leaves the initial state. |
| CsvParser.PlainPrefix | src/csv_parser.rs:60-103 | After any quote-free prefix that does not start with `,`, and in which every comma is a cluster of its own, the pushed columns are the finished pieces of `split(',')` of the text so far. |
| CsvParser.PlainFinish | src/csv_parser.rs:105-107 | The final flush adds the last piece unless it is empty. |
| CsvParser.PlainLineIsSplit | src/csv_parser.rs:55-110 | On a line without quotes that does not start with `,`, and in which every comma is a cluster of its own, `parse_csv` returns the pieces of `split(',')`, with a trailing empty piece dropped. |
| Items.TrimStartSuffix | src/csv_parser.rs:23 | Trimming the start leaves a suffix that starts with a non-space, and removes only spaces. |
| Items.TrimEndPrefix | src/csv_parser.rs:34 | Trimming the end leaves a prefix that ends with a non-space, and removes only spaces. |
| Items.TrimStart | src/csv_parser.rs:34 | `trim_start`: drops leading white space one byte at a time. |
| Items.TrimEnd | src/csv_parser.rs:34 | `trim_end`: drops trailing white space one byte at a time. |
| Items.Trim | src/csv_parser.rs:34 | `trim`: the start trimmed, then the end; the result is never longer than the text. |
| Items.TrimSlice | src/csv_parser.rs:34 | `trim()` is a slice of the text with only white space cut on either side, and it starts and ends with a non-space. |
| Items.TrimIdempotent | src/csv_parser.rs:34 | Trimming twice is trimming once. |
| Items.DotForComma | src/csv_parser.rs:37 | `replace(',', ".")` keeps the length, leaves no comma, and maps every comma to a dot and every other byte to itself. |
| Items.Position | src/csv_parser.rs:21-28 | `position` over the trimmed header pieces returns the first index whose trimmed piece is the name, or nothing when no piece matches. |
| Items.ItemOf | src/csv_parser.rs:32-40 | A row yields the parser's panic, a missing-field error when an index is beyond its columns, an invalid-amount error, or an item with an already trimmed tag. |
| Items.Extract | src/main.rs:149-174 | An empty list of lines panics on `lines[0]`. |
| Items.RowsOk | src/csv_parser.rs:30-43 | The rows succeed exactly when every row does; then item `k` is row `k`'s item, and there are as many items as rows. |
| Items.RowsErr | src/csv_parser.rs:31-42 | When the rows fail, the error is the first failing row's and every earlier row succeeded. |
| Items.RowsSnoc | src/csv_parser.rs:41 | One more row appends its item or stops with its error. |
| Items.RowsErrPersists | src/csv_parser.rs:31-42 | Once a row has failed, later rows change nothing. |
| Items.ExtractOk | src/csv_parser.rs:19-44 | On success, both header names were found, there is one item per line after the header, and item `k-1` is line `k` read with the found indices. |
| Items.MissingHeaderName | src/csv_parser.rs:21-24 | The result is the missing-tag-column error exactly when no header piece trims to the tag name. |
| Items.PlainRowTag | src/csv_parser.rs:32-34 | For a quote-free row that does not start with `,`, and in which every comma is a cluster of its own, the tag is the trimmed `tagIndex`-th piece of `split(',')`. |
| Items.RowsPrefixStep | src/csv_parser.rs:31-42 | After a successful prefix, the next row's item is appended, or its error is the result of all the rows. |
| Items.RowsPrefixErr | src/csv_parser.rs:31-42 | After a successful prefix, a row that fails ends the loop with that row's error. |
| Items.Rows | src/csv_parser.rs:30-43 | The row loop as a left fold: each row's item is pushed in turn, the first failing row ends it; on success there is one item per row. |
| Items.RowItem | src/csv_parser.rs:32-40 | Reading one row returns `ItemOf` of it. |
| Items.ReadRows | src/csv_parser.rs:30-43 | The row loop returns `Rows` of the rows. |
| Items.GetItems | src/csv_parser.rs:19-44 | `get_items` returns `Extract` of its lines. |
| Expenses.FindTag | src/main.rs:178 | `find` by tag returns the first item with the tag, or nothing when none has it. |
| Expenses.HasTag | src/main.rs:191 | `any` over the baseline by tag: some item carries the tag. |
| Expenses.HasTagFound | src/main.rs:178-191 | `any` by tag holds exactly when `find` by tag returns an item. |
| Expenses.CurrentAmount | src/main.rs:178-181 | The current amount is that of the first current item with the tag, or zero. |
| Expenses.Differences | src/main.rs:177-186 | One entry per baseline item. |
| Expenses.DifferenceEntries | src/main.rs:177-186 | Entry `i` has baseline item `i`'s tag and the amount current minus baseline. |
| Expenses.NewItemsCount | src/main.rs:189-194 | Every current item whose tag is absent from the baseline is kept, as often as it occurs; items with a baseline tag are dropped. |
| Expenses.NewItems | src/main.rs:189-194 | The filtered current items, in their order: those whose tag no baseline item carries; never more than the current items. |
| Expenses.Insert | src/main.rs:196 | One insertion step of the sort: the item goes after the last item whose amount is at least its own; one item longer. |
| Expenses.SortDesc | src/main.rs:196 | The sort by descending amount as repeated insertion; it keeps the length. |
| Expenses.SortedSnoc | src/main.rs:196 | Appending an item no larger than any present keeps a descending sequence descending. |
| Expenses.InsertPermutes | src/main.rs:196 | Inserting adds exactly the one item. |
| Expenses.InsertSorted | src/main.rs:196 | Inserting into a descending sequence keeps it descending. |
| Expenses.InsertStable | src/main.rs:196 | Inserting puts the item after those of equal amount. |
| Expenses.SortDescSorted | src/main.rs:196 | The sort orders by amount, largest first. |
| Expenses.SortDescPermutes | src/main.rs:196 | The sort is a permutation. |
| Expenses.SortDescStable | src/main.rs:196 | The sort is stable: items of equal amount keep their order. |
| Expenses.LastIsSmallest | src/main.rs:196 | In a descending sequence, the last item's amount is at most any amount present. |
| Expenses.WithAmountMembers | src/main.rs:196 | The items selected by amount have that amount and come from the sequence. |
| Expenses.LastHasItsAmount | src/main.rs:196 | The last item is among the items of its own amount. |
| Expenses.SortUnique | src/main.rs:196 | Two descending sequences with the same items of each amount, in the same order, are equal: any stable descending sort gives this result. |
| Expenses.ComparisonProperties | src/main.rs:176-198 | The comparison holds exactly the differences and the new items, is sorted largest first, and keeps equal amounts in push order. |
| Expenses.Unsorted | src/main.rs:177-194 | The vector just before the sort: the differences, then the new items. |
| Expenses.Comparison | src/main.rs:176-198 | `compare_expenses` as a value: the differences, then the new items, sorted; one entry per baseline item plus one per new item. |
| Expenses.CompareExpenses | src/main.rs:176-198 | The two push loops and the sort return `Comparison`. |
| Tokenizer.TokenBuffer.constructor | src/engine/tokenizer.rs:42-66 | A new buffer of either kind is empty. |
| Tokenizer.TokenBuffer.Push | src/engine/tokenizer.rs:50-71 | `push` appends the character to the buffer. |
| Tokenizer.TokenBuffer.Render | src/engine/tokenizer.rs:55-75 | A text buffer renders its contents; an expression buffer renders the fixed placeholder. |
| Tokenizer.JoinedSnoc | src/engine/tokenizer.rs:9-22 | Appending a token appends its text and counts one more of its kind. |
| Tokenizer.ScanStep | src/engine/tokenizer.rs:8-24 | One character of the loop: a second `{` opens an expression token, a second `}` a text token, a first one sets its flag, any other character goes to the newest token; the token list never becomes empty. |
| Tokenizer.Scan | src/engine/tokenizer.rs:1-27 | The loop as a left fold of `ScanStep` from one empty text token and both flags clear; the token list is never empty. |
| Tokenizer.Tokens | src/engine/tokenizer.rs:1-27 | The tokens `tokenize` returns: at least one. |
| Tokenizer.StepFacts | src/engine/tokenizer.rs:8-24 | One character flips the matching flag, opens a token on the second brace of a kind, and otherwise adds the character to the joined text. |
| Tokenizer.OpenToken | src/engine/tokenizer.rs:9-22 | Opening a token keeps the first token, counts one more of its kind and adds no text. |
| Tokenizer.PushToNewest | src/engine/tokenizer.rs:23 | Pushing a character onto the newest token keeps the kinds and adds the character to the joined text. |
| Tokenizer.ScanInvariant | src/engine/tokenizer.rs:1-27 | After any prefix: the flags mark an odd count of `{` and of `}`; the first token is text; there is one expression token per pair of `{` and one more text token per pair of `}`; the texts spell the template without its braces. |
| Tokenizer.ScanFlags | src/engine/tokenizer.rs:4-22 | The flags mark an odd count of each brace, and the token list starts with a text token and is never empty, so `last_mut().unwrap()` never panics. |
| Tokenizer.ScanCounts | src/engine/tokenizer.rs:9-22 | Every second `{` has opened an expression token and every second `}` a text token. |
| Tokenizer.ScanText | src/engine/tokenizer.rs:7-25 | No brace is stored and no other character is lost. |
| Tokenizer.TokenCount | src/engine/tokenizer.rs:1-27 | The number of tokens is one plus the pairs of `{` plus the pairs of `}`. |
| Tokenizer.NonBraceToNewest | src/engine/tokenizer.rs:23 | A non-brace character extends the newest token, whatever its kind. |
| Tokenizer.LoneBraceDropped | src/engine/tokenizer.rs:9-22 | A single `{` or `}` is dropped rather than kept as text: `a{b` and `a}b` give the text `ab`. |
| Tokenizer.LoneBraceBetween | src/engine/tokenizer.rs:9-22 | A single brace of either kind between two letters is dropped: one text token holding the two letters. |
| Tokenizer.FlagSurvivesText | src/engine/tokenizer.rs:9-15 | Characters between two `{` do not reset the flag: `{a{` opens an expression token. |
| Tokenizer.OpenExpressionKept | src/engine/tokenizer.rs:26 | An expression still open at the end is returned as it stands. |
| Tokenizer.Tokenize | src/engine/tokenizer.rs:1-27 | `tokenize` returns fresh, distinct buffers whose kinds and contents are `Tokens(template)`. |
| Tokenizer.Consume | src/engine/tokenizer.rs:8-24 | One pass of the loop body updates the buffers and both flags exactly as one step of the token model. |
| Tokenizer.ScanPrefix | src/engine/tokenizer.rs:7 | Reading one more character of the template is one more step of the scan. |
| Tokenizer.StepFlags | src/engine/tokenizer.rs:8-24 | One character flips the flag of its own brace only, and the first token keeps its kind. |
| Tokenizer.NewBuffer | src/engine/tokenizer.rs:9-22 | A new empty buffer placed after the others mirrors one more empty token. |
| Tokenizer.PushNewest | src/engine/tokenizer.rs:23 | Pushing onto the newest buffer changes that buffer only, as in the token model. |
| ParamModel.ParamPairs | src/engine/model.rs:28 | Mapping each parameter to its `(name, value)` pair keeps the order and length. |
| ParamModel.ArrayPairs | src/engine/model.rs:29-32 | The same for list parameters. |
| ParamModel.Collect | src/engine/model.rs:28-32 | `collect()` into a map: the pairs inserted in order, so the last pair's name holds the last pair's value. |
| ParamModel.CollectSnoc | src/engine/model.rs:28 | Collecting one more pair is one more insertion. |
| ParamModel.CollectKeys | src/engine/model.rs:28-32 | A name is a key of the collected dictionary exactly when some pair carries it. |
| ParamModel.CollectLastWins | src/engine/model.rs:28-32 | The value kept for a name is that of the last pair carrying it. |
| ParamModel.Model.constructor | src/engine/model.rs:19-24 | `new` starts with both dictionaries empty. |
| ParamModel.Model.WithParams | src/engine/model.rs:26-34 | `new_with_params` collects each list into its dictionary. |
| ParamModel.Model.AddParam | src/engine/model.rs:36-38 | `add_param` sets or replaces one string parameter and leaves the list parameters unchanged. |
| ParamModel.Model.AddArrayParam | src/engine/model.rs:40-42 | `add_array_param` sets or replaces one list parameter and leaves the string parameters unchanged. |
| ParamModel.WithParamsThenAdd | src/engine/model.rs:26-38 | Building from a list with one more parameter equals building without it, then `add_param`. |
| ParamModel.WithArrayParamsThenAdd | src/engine/model.rs:26-42 | The same for `add_array_param`. |
| ParamModel.WithParamsContents | src/engine/model.rs:26-34 | After `new_with_params`, exactly the listed names are present, each holding the value of its last occurrence. |

`parse_csv` (src/main.rs:92-147), `get_items` (src/main.rs:149-174) and `CostItem`
(src/main.rs:68-81) are identical to those in src/csv_parser.rs apart from visibility and
field-init shorthand. One model covers both.

## Left out

- Grapheme segmentation (`graphemes(true)`) is a call into the Unicode segmentation library. The line
  reaches the model already split into clusters, each one given as its UTF-8 bytes.
- Decimal parsing (`Decimal::from_str` behind `parse()`) is a parameter `parseAmount` of the
  extractor. Its failure is the `InvalidAmount` error where the source panics. Decimals are `real`.
- Items.TrimSlice: `str::trim` removes all Unicode white space; the model removes ASCII white space
  (space, tab, line feed, vertical tab, form feed, carriage return) only.
- Expenses.SortDescStable: the library's `sort_by` is a merge sort. The model sorts by insertion.
  `Expenses.SortUnique` shows that any stable descending sort gives the same sequence.
- Expenses.CompareExpenses: amounts are exact; `Decimal` overflow in the subtraction is not modelled.
- The source's panics (`lines[0]` on no lines, `unwrap` on a missing header name, an index past a
  row's columns, `expect` on a bad amount, the two parser panics) are `Err` results.
- Reading files (`load_expenses`), `main`, `generate_report`, the HTML view, the importer, the template
  renderer and the TypeScript front end are outside the modelled core.
- A comma followed by a combining mark is one grapheme cluster, which `parse_csv` does not treat as
  a separator, while the header's byte-level `split(',')` does. Header and rows can then disagree
  on the columns. `CsvParser.PlainOther`, `CsvParser.PlainGrapheme`, `CsvParser.PlainPrefix`,
  `CsvParser.PlainLineIsSplit` and `Items.PlainRowTag` therefore require every comma to be a
  cluster of its own.
- Tokenizer.Tokenize: the trait objects `Box<dyn TokenBuffer>` are one class with a `kind`;
  which concrete struct a buffer is, is its `kind`.
- ParamModel.Model: the source's field `arams` (src/engine/model.rs:14) is named `params`, as its
  constructors and `add_param` use it. src/main.rs calls `new_with_params` with one list of
  parameters holding structured values. That different `Model` interface is not part of this model.
- Three behaviours of the code may surprise a reader who expects usual CSV or template rules. The
  model keeps them as the code has them:
  - a line ending inside an open quote drops that field, with no error;
  - `""` inside a quoted field is not an escape: the first quote closes the field and the second
    makes the line fail with the after-escape error;
  - a single `{` or `}` in a template is dropped, not kept as text.

## Findings

| source | as written | input that shows it | evidently intended | confidence | as-written member | corrected member |
|---|---|---|---|---|---|---|
| src/csv_parser.rs:87 (and src/main.rs:124) | the quoted column is `line[start..last_pos - last_len]`, which ends before the last grapheme of the content | the line `"ab"` gives the column `a` | the column is `line[start..last_pos]`, the whole content `ab` | not executed | CsvParser.QuotedFieldLosesLastGrapheme | CsvParser.QuotedFieldKeepsContent |

The parser takes the closing rule as a parameter: `AsWritten` or `Intended`.
`CsvParser.QuotedFieldCounterexample` shows both rules on the same line.
