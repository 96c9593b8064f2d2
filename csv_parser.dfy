/**
 * The line parser `parse_csv` of src/csv_parser.rs. src/main.rs holds a copy that is identical
 * apart from visibility and field-init shorthand.
 *
 * A line reaches the parser as its grapheme clusters, each one given as the UTF-8 bytes it
 * occupies in the line; the line's text is their concatenation. The parser walks the clusters
 * with a six-state machine, keeps the byte offset of the current cluster (`lastPos`) and the byte
 * length of the previous one (`lastLen`), and reports every column as the byte range it occupies.
 */
module CsvParser {
  import opened Common

  const Comma: byte := 0x2C
  const Quote: byte := 0x22

  /** One grapheme cluster, as its UTF-8 bytes. */
  type Grapheme = seq<byte>

  datatype State =
    | Initial
    | EscapeStart
    | EscapeEnd
    | Column(start: nat)
    | ColumnEscaped(start: nat)
    | Separator

  /** The grapheme is the single byte `b`: the source's comparison `ch == ","`. */
  predicate Is(g: Grapheme, b: byte)
  {
    |g| == 1 && g[0] == b
  }

  /** A column: the bytes `line[start..end]`. The literal "" the source pushes is an empty span. */
  datatype Span = Span(start: nat, end: nat)

  /** The two panics of the parser. */
  datatype CsvError = LeadingSeparator | TextAfterClosingQuote

  /**
   * Where a quoted column ends. `AsWritten` is the source's `last_pos - last_len`, which stops
   * before the last grapheme of the content; `Intended` stops at the closing quote.
   */
  datatype QuoteClose = AsWritten | Intended

  /** The loop's variables: `state`, `cols`, `last_pos`, `last_len`. */
  datatype Machine = Machine(state: State, cols: seq<Span>, lastPos: nat, lastLen: nat)

  const Start := Machine(Initial, [], 0, 0)

  /** Every offset the machine holds lies inside the text read so far. */
  predicate Bounded(m: Machine)
  {
    && m.lastLen <= m.lastPos
    && (forall s <- m.cols :: s.start <= s.end <= m.lastPos)
    && (m.state.Column? ==> m.state.start <= m.lastPos)
    && (m.state.ColumnEscaped? ==> m.state.start <= m.lastPos - m.lastLen)
  }

  /**
   * The end of a quoted column when its closing quote is read. The source subtracts unsigned
   * integers; no reachable machine has `lastLen > lastPos` (`StepsBounded`), so the guard that
   * keeps the result a `nat` never applies.
   */
  function QuotedEnd(m: Machine, close: QuoteClose): (e: nat)
    ensures e <= m.lastPos
    ensures close == Intended ==> e == m.lastPos
  {
    match close
    case AsWritten => if m.lastLen <= m.lastPos then m.lastPos - m.lastLen else 0
    case Intended => m.lastPos
  }

  /** The bookkeeping after every grapheme: `last_len = ch.len(); last_pos += last_len`. */
  function Advance(m: Machine, state: State, cols: seq<Span>, g: Grapheme): (r: Machine)
    ensures r.lastPos == m.lastPos + |g| && r.lastLen == |g|
  {
    Machine(state, cols, m.lastPos + |g|, |g|)
  }

  /** One iteration of the loop on grapheme `g`. */
  function Step(m: Machine, g: Grapheme, close: QuoteClose): (r: Result<Machine, CsvError>)
    ensures r.Err? <==> (m.state == Initial && Is(g, Comma)) || (m.state == EscapeEnd && !Is(g, Comma))
    ensures r.Err? ==> r.error == if m.state == Initial then LeadingSeparator else TextAfterClosingQuote
    ensures r.Ok? ==> r.value.lastPos == m.lastPos + |g| && m.cols <= r.value.cols && |r.value.cols| <= |m.cols| + 1
  {
    match m.state
    case Initial =>
      if Is(g, Comma) then Err(LeadingSeparator)
      else if Is(g, Quote) then Ok(Advance(m, EscapeStart, m.cols, g))
      else Ok(Advance(m, Column(m.lastPos), m.cols, g))
    case EscapeStart =>
      if Is(g, Quote) then Ok(Advance(m, EscapeEnd, m.cols + [Span(m.lastPos, m.lastPos)], g))
      else Ok(Advance(m, ColumnEscaped(m.lastPos), m.cols, g))
    case EscapeEnd =>
      if Is(g, Comma) then Ok(Advance(m, Separator, m.cols, g))
      else Err(TextAfterClosingQuote)
    case Column(start) =>
      if Is(g, Comma) then Ok(Advance(m, Separator, m.cols + [Span(start, m.lastPos)], g))
      else Ok(Advance(m, m.state, m.cols, g))
    case ColumnEscaped(start) =>
      if Is(g, Quote) then Ok(Advance(m, EscapeEnd, m.cols + [Span(start, QuotedEnd(m, close))], g))
      else Ok(Advance(m, m.state, m.cols, g))
    case Separator =>
      if Is(g, Comma) then Ok(Advance(m, Separator, m.cols + [Span(m.lastPos, m.lastPos)], g))
      else if Is(g, Quote) then Ok(Advance(m, EscapeStart, m.cols, g))
      else Ok(Advance(m, Column(m.lastPos), m.cols, g))
  }

  /** The loop run from machine `m` over the graphemes `gs`, up to the first panic. */
  function Steps(m: Machine, gs: seq<Grapheme>, close: QuoteClose): (r: Result<Machine, CsvError>)
  {
    if gs == [] then Ok(m)
    else
      match Steps(m, gs[..|gs| - 1], close)
      case Err(e) => Err(e)
      case Ok(m') => Step(m', gs[|gs| - 1], close)
  }

  /** The machine after the loop has consumed the line `gs`, or the first panic. */
  function Run(gs: seq<Grapheme>, close: QuoteClose): (r: Result<Machine, CsvError>)
  {
    Steps(Start, gs, close)
  }

  /**
   * Every iteration keeps the offsets inside the text read, so the source's unsigned subtraction
   * `last_pos - last_len` is never below zero.
   */
  lemma StepBounded(m: Machine, g: Grapheme, close: QuoteClose)
    requires Bounded(m)
    ensures Step(m, g, close).Ok? ==> Bounded(Step(m, g, close).value)
  {
  }

  lemma {:induction false} StepsBounded(m: Machine, gs: seq<Grapheme>, close: QuoteClose)
    requires Bounded(m)
    ensures Steps(m, gs, close).Ok? ==> Bounded(Steps(m, gs, close).value)
  {
    if gs != [] {
      StepsBounded(m, gs[..|gs| - 1], close);
      if Steps(m, gs[..|gs| - 1], close).Ok? {
        StepBounded(Steps(m, gs[..|gs| - 1], close).value, gs[|gs| - 1], close);
      }
    }
  }

  lemma RunBounded(gs: seq<Grapheme>, close: QuoteClose)
    ensures Run(gs, close).Ok? ==> Bounded(Run(gs, close).value)
  {
    StepsBounded(Start, gs, close);
  }

  /** The offset the loop reaches is the byte length of the graphemes it consumed. */
  lemma {:induction false} StepsLength(m: Machine, gs: seq<Grapheme>, close: QuoteClose)
    ensures Steps(m, gs, close).Ok? ==> Steps(m, gs, close).value.lastPos == m.lastPos + |Concat(gs)|
  {
    if gs != [] {
      StepsLength(m, gs[..|gs| - 1], close);
    }
  }

  lemma RunLength(gs: seq<Grapheme>, close: QuoteClose)
    ensures Run(gs, close).Ok? ==> Run(gs, close).value.lastPos == |Concat(gs)|
  {
    StepsLength(Start, gs, close);
  }

  /** After the loop only a pending unquoted column is flushed. */
  function Finish(m: Machine): (cols: seq<Span>)
    ensures m.state.Column? ==> cols == m.cols + [Span(m.state.start, m.lastPos)]
    ensures !m.state.Column? ==> cols == m.cols
  {
    if m.state.Column? then m.cols + [Span(m.state.start, m.lastPos)] else m.cols
  }

  /** The columns of a whole line, or the panic that ends it. */
  function Parse(gs: seq<Grapheme>, close: QuoteClose): (r: Result<seq<Span>, CsvError>)
    ensures gs == [] ==> r == Ok([])
  {
    match Run(gs, close)
    case Err(e) => Err(e)
    case Ok(m) => Ok(Finish(m))
  }

  /** Every column `Parse` reports is a slice inside the line. */
  lemma ParseWithin(gs: seq<Grapheme>, close: QuoteClose)
    ensures Parse(gs, close).Ok? ==> forall s <- Parse(gs, close).value :: s.start <= s.end <= |Concat(gs)|
  {
    RunBounded(gs, close);
    RunLength(gs, close);
  }

  function ColumnText(line: seq<byte>, s: Span): (r: seq<byte>)
    requires s.start <= s.end <= |line|
  {
    line[s.start..s.end]
  }

  function Texts(line: seq<byte>, spans: seq<Span>): (r: seq<seq<byte>>)
    requires forall s <- spans :: s.start <= s.end <= |line|
  {
    seq(|spans|, k requires 0 <= k < |spans| => ColumnText(line, spans[k]))
  }

  /** The loop of `parse_csv`, with the panics returned as errors. */
  method ParseCsv(line: seq<Grapheme>, close: QuoteClose) returns (r: Result<seq<Span>, CsvError>)
    ensures r == Parse(line, close)
  {
    var state := Initial;
    var cols: seq<Span> := [];
    var lastPos: nat := 0;
    var lastLen: nat := 0;
    for i := 0 to |line|
      invariant Run(line[..i], close) == Ok(Machine(state, cols, lastPos, lastLen))
    {
      var ch := line[i];
      assert line[..i + 1] == line[..i] + [ch];
      RunSnoc(line[..i], ch, close);
      RunBounded(line[..i], close);
      match state {
        case Initial =>
          if Is(ch, Comma) {
            RunErrPersists(line, i + 1, close);
            return Err(LeadingSeparator);
          } else if Is(ch, Quote) {
            state := EscapeStart;
          } else {
            state := Column(lastPos);
          }
        case EscapeStart =>
          if Is(ch, Quote) {
            cols := cols + [Span(lastPos, lastPos)];
            state := EscapeEnd;
          } else {
            state := ColumnEscaped(lastPos);
          }
        case EscapeEnd =>
          if Is(ch, Comma) {
            state := Separator;
          } else {
            RunErrPersists(line, i + 1, close);
            return Err(TextAfterClosingQuote);
          }
        case Column(start) =>
          if Is(ch, Comma) {
            cols := cols + [Span(start, lastPos)];
            state := Separator;
          }
        case ColumnEscaped(start) =>
          if Is(ch, Quote) {
            var stop := if close == AsWritten then lastPos - lastLen else lastPos;
            cols := cols + [Span(start, stop)];
            state := EscapeEnd;
          }
        case Separator =>
          if Is(ch, Comma) {
            cols := cols + [Span(lastPos, lastPos)];
          } else if Is(ch, Quote) {
            state := EscapeStart;
          } else {
            state := Column(lastPos);
          }
      }
      lastLen := |ch|;
      lastPos := lastPos + lastLen;
    }
    assert line[..|line|] == line;
    if state.Column? {
      cols := cols + [Span(state.start, lastPos)];
    }
    return Ok(cols);
  }

  lemma StepsSnoc(m: Machine, gs: seq<Grapheme>, g: Grapheme, close: QuoteClose)
    ensures Steps(m, gs, close).Err? ==> Steps(m, gs + [g], close) == Steps(m, gs, close)
    ensures Steps(m, gs, close).Ok? ==> Steps(m, gs + [g], close) == Step(Steps(m, gs, close).value, g, close)
  {
    assert (gs + [g])[..|gs|] == gs;
  }

  lemma RunSnoc(gs: seq<Grapheme>, g: Grapheme, close: QuoteClose)
    ensures Run(gs, close).Err? ==> Run(gs + [g], close) == Run(gs, close)
    ensures Run(gs, close).Ok? ==> Run(gs + [g], close) == Step(Run(gs, close).value, g, close)
  {
    StepsSnoc(Start, gs, g, close);
  }

  /** Running over `a + b` is running over `a`, then from where that stopped over `b`. */
  lemma {:induction false} StepsAppend(m: Machine, a: seq<Grapheme>, b: seq<Grapheme>, close: QuoteClose)
    ensures Steps(m, a, close).Err? ==> Steps(m, a + b, close) == Steps(m, a, close)
    ensures Steps(m, a, close).Ok? ==> Steps(m, a + b, close) == Steps(Steps(m, a, close).value, b, close)
  {
    if b == [] {
      assert a + b == a;
    } else {
      var b', g := b[..|b| - 1], b[|b| - 1];
      assert a + b == (a + b') + [g];
      assert b == b' + [g];
      StepsAppend(m, a, b', close);
      StepsSnoc(m, a + b', g, close);
      if Steps(m, a, close).Ok? {
        StepsSnoc(Steps(m, a, close).value, b', g, close);
      }
    }
  }

  /** A panic ends the parse: nothing after it changes the outcome. */
  lemma RunErrPersists(gs: seq<Grapheme>, k: nat, close: QuoteClose)
    requires k <= |gs| && Run(gs[..k], close).Err?
    ensures Run(gs, close) == Run(gs[..k], close)
  {
    assert gs == gs[..k] + gs[k..];
    StepsAppend(Start, gs[..k], gs[k..], close);
  }

  /** A line whose first grapheme is a comma is rejected. */
  lemma LeadingSeparatorRejected(gs: seq<Grapheme>, close: QuoteClose)
    requires gs != [] && Is(gs[0], Comma)
    ensures Parse(gs, close) == Err(LeadingSeparator)
  {
    assert gs[..1] == [] + [gs[0]];
    RunSnoc([], gs[0], close);
    RunErrPersists(gs, 1, close);
  }

  // ----- Quoted fields -----

  /** The machine stands where a new field begins: at the start of the line or after a comma. */
  predicate AtFieldStart(m: Machine)
  {
    m.state == Initial || m.state == Separator
  }

  predicate NoQuote(c: seq<Grapheme>)
  {
    forall g <- c :: !Is(g, Quote)
  }

  /** After an opening quote, the machine reads quote-free content as one escaped column. */
  lemma {:induction false} EscapedContent(m: Machine, c: seq<Grapheme>, close: QuoteClose)
    requires m.state == EscapeStart
    requires NoQuote(c) && c != []
    ensures Steps(m, c, close)
      == Ok(Machine(ColumnEscaped(m.lastPos), m.cols, m.lastPos + |Concat(c)|, |c[|c| - 1]|))
  {
    var c', last := c[..|c| - 1], c[|c| - 1];
    assert c == c' + [last];
    assert !Is(last, Quote) by {
      assert last in c;
    }
    StepsSnoc(m, c', last, close);
    ConcatSnoc(c', last);
    if c' == [] {
      assert Steps(m, c', close) == Ok(m);
      assert Concat(c') == [];
    } else {
      assert NoQuote(c') by {
        assert forall g <- c' :: g in c;
      }
      EscapedContent(m, c', close);
    }
  }

  /** The opening quote of a field. */
  lemma OpenQuote(m: Machine, close: QuoteClose)
    requires AtFieldStart(m)
    ensures Steps(m, [[Quote]], close) == Ok(Advance(m, EscapeStart, m.cols, [Quote]))
  {
    assert [] + [[Quote]] == [[Quote]];
    StepsSnoc(m, [], [Quote], close);
  }

  /** The machine just before the closing quote of a field whose content is `c`. */
  lemma QuotedContent(m: Machine, c: seq<Grapheme>, close: QuoteClose)
    requires AtFieldStart(m) && NoQuote(c)
    ensures
      var open := Advance(m, EscapeStart, m.cols, [Quote]);
      var inside := Steps(m, [[Quote]] + c, close);
      && inside.Ok?
      && inside.value.cols == m.cols
      && inside.value.lastPos == m.lastPos + 1 + |Concat(c)|
      && (c == [] ==> inside.value == open)
      && (c != [] ==> inside.value.state == ColumnEscaped(m.lastPos + 1) && inside.value.lastLen == |c[|c| - 1]|)
  {
    var open := Advance(m, EscapeStart, m.cols, [Quote]);
    OpenQuote(m, close);
    StepsAppend(m, [[Quote]], c, close);
    if c != [] {
      EscapedContent(open, c, close);
    } else {
      assert [[Quote]] + c == [[Quote]];
    }
  }

  /** The closing quote of a field emits its column and ends the escaped sequence. */
  lemma CloseQuote(x: Machine, close: QuoteClose)
    requires x.lastLen <= x.lastPos && (x.state == EscapeStart || x.state.ColumnEscaped?)
    ensures
      var stop := if x.state == EscapeStart then x.lastPos else QuotedEnd(x, close);
      var start := if x.state == EscapeStart then x.lastPos else x.state.start;
      Step(x, [Quote], close) == Ok(Machine(EscapeEnd, x.cols + [Span(start, stop)], x.lastPos + 1, 1))
  {
  }

  /**
   * Where the column of a quoted field with content `c` ends, the opening quote being at `p`:
   * after the content, or (as written, when there is content) before its last grapheme.
   */
  function FieldEnd(p: nat, c: seq<Grapheme>, close: QuoteClose): (e: nat)
    ensures p + 1 <= e <= p + 1 + |Concat(c)|
  {
    if c == [] || close == Intended then p + 1 + |Concat(c)|
    else p + 1 + |Concat(c)| - |c[|c| - 1]|
  }

  /** From the start of a field, `"` then quote-free `c` then `"`: one quoted column. */
  lemma QuotedField(m: Machine, c: seq<Grapheme>, close: QuoteClose)
    requires AtFieldStart(m) && NoQuote(c)
    ensures Steps(m, [[Quote]] + c + [[Quote]], close)
      == Ok(Machine(EscapeEnd, m.cols + [Span(m.lastPos + 1, FieldEnd(m.lastPos, c, close))], m.lastPos + 2 + |Concat(c)|, 1))
  {
    QuotedContent(m, c, close);
    var inside := Steps(m, [[Quote]] + c, close).value;
    CloseQuote(inside, close);
    StepsSnoc(m, [[Quote]] + c, [Quote], close);
  }

  /** The text of a line that ends with a quoted field. */
  lemma QuotedLineText(a: seq<Grapheme>, c: seq<Grapheme>)
    ensures Concat(a + ([[Quote]] + c + [[Quote]])) == Concat(a) + [Quote] + Concat(c) + [Quote]
  {
    ConcatAppend(a, [[Quote]] + c + [[Quote]]);
    ConcatAppend([[Quote]] + c, [[Quote]]);
    ConcatAppend([[Quote]], c);
    ConcatSnoc([], [Quote]);
    assert [] + [[Quote]] == [[Quote]];
  }

  lemma RunAppend(a: seq<Grapheme>, b: seq<Grapheme>, close: QuoteClose)
    requires Run(a, close).Ok?
    ensures Run(a + b, close) == Steps(Run(a, close).value, b, close)
  {
    StepsAppend(Start, a, b, close);
  }

  /** A line ending inside an open quote silently drops the open field. */
  lemma UnterminatedQuoteDropped(a: seq<Grapheme>, c: seq<Grapheme>, close: QuoteClose)
    requires Run(a, close).Ok? && AtFieldStart(Run(a, close).value)
    requires NoQuote(c)
    ensures Parse(a + ([[Quote]] + c), close) == Ok(Run(a, close).value.cols)
  {
    RunAppend(a, [[Quote]] + c, close);
    QuotedContent(Run(a, close).value, c, close);
  }

  /** Parsing a line whose prefix `a` leaves the machine where `b` then takes it to `x`. */
  lemma ParseThrough(a: seq<Grapheme>, b: seq<Grapheme>, close: QuoteClose, x: Machine)
    requires Run(a, close).Ok? && Steps(Run(a, close).value, b, close) == Ok(x)
    ensures Parse(a + b, close) == Ok(Finish(x))
  {
    RunAppend(a, b, close);
  }

  /** A line that ends with a quoted field: the columns before it, then one whose span starts after the quote. */
  /** A run that ends outside an unquoted column returns the columns pushed so far. */
  lemma ParseThroughClosed(a: seq<Grapheme>, b: seq<Grapheme>, close: QuoteClose, x: Machine)
    requires Run(a, close).Ok? && Steps(Run(a, close).value, b, close) == Ok(x) && !x.state.Column?
    ensures Parse(a + b, close) == Ok(x.cols)
  {
    ParseThrough(a, b, close, x);
  }

  /** `QuotedLine` for a prefix whose machine and byte length are given. */
  lemma QuotedLineAt(a: seq<Grapheme>, c: seq<Grapheme>, close: QuoteClose, m: Machine, p: nat)
    requires Run(a, close) == Ok(m) && AtFieldStart(m) && m.lastPos == p
    requires NoQuote(c)
    ensures Parse(a + ([[Quote]] + c + [[Quote]]), close) == Ok(m.cols + [Span(p + 1, FieldEnd(p, c, close))])
  {
    var x := Machine(EscapeEnd, m.cols + [Span(p + 1, FieldEnd(p, c, close))], p + 2 + |Concat(c)|, 1);
    QuotedField(m, c, close);
    ParseThroughClosed(a, [[Quote]] + c + [[Quote]], close, x);
  }

  lemma QuotedLine(a: seq<Grapheme>, c: seq<Grapheme>, close: QuoteClose)
    requires Run(a, close).Ok? && AtFieldStart(Run(a, close).value)
    requires NoQuote(c)
    ensures
      var p := |Concat(a)|;
      Parse(a + ([[Quote]] + c + [[Quote]]), close) == Ok(Run(a, close).value.cols + [Span(p + 1, FieldEnd(p, c, close))])
  {
    RunLength(a, close);
    QuotedLineAt(a, c, close, Run(a, close).value, |Concat(a)|);
  }

  /** An empty quoted field `""` yields exactly one empty column. */
  lemma EmptyQuotedField(a: seq<Grapheme>, close: QuoteClose)
    requires Run(a, close).Ok? && AtFieldStart(Run(a, close).value)
    ensures
      var line := a + [[Quote], [Quote]];
      var p := |Concat(a)|;
      && Parse(line, close) == Ok(Run(a, close).value.cols + [Span(p + 1, p + 1)])
      && Concat(line) == Concat(a) + [Quote, Quote]
  {
    var line := a + [[Quote], [Quote]];
    assert a + ([[Quote]] + [] + [[Quote]]) == line;
    assert Parse(line, close) == Ok(Run(a, close).value.cols + [Span(|Concat(a)| + 1, FieldEnd(|Concat(a)|, [], close))]) by {
      QuotedLine(a, [], close);
    }
    assert Concat(line) == Concat(a) + [Quote, Quote] by {
      QuotedLineText(a, []);
    }
  }

  /**
   * As written, the column of a quoted field with content `c` (see QuotedLine) holds its content
   * minus the last grapheme: the end offset `last_pos - last_len` stops before the grapheme that
   * precedes the closing quote.
   */
  lemma QuotedFieldLosesLastGrapheme(a: seq<Grapheme>, body: seq<Grapheme>, last: Grapheme)
    ensures
      var c := body + [last];
      var line := a + ([[Quote]] + c + [[Quote]]);
      var p := |Concat(a)|;
      && Concat(line) == Concat(a) + [Quote] + (Concat(body) + last) + [Quote]
      && ColumnText(Concat(line), Span(p + 1, FieldEnd(p, c, AsWritten))) == Concat(body)
  {
    var c := body + [last];
    var line := a + ([[Quote]] + c + [[Quote]]);
    var p := |Concat(a)|;
    assert Concat(c) == Concat(body) + last by {
      ConcatSnoc(body, last);
    }
    assert Concat(line) == Concat(a) + [Quote] + (Concat(body) + last) + [Quote] by {
      QuotedLineText(a, c);
    }
    var text := Concat(a) + [Quote] + (Concat(body) + last) + [Quote];
    var e := p + 1 + |Concat(body)|;
    assert FieldEnd(p, c, AsWritten) == e by {
      assert c[|c| - 1] == last;
      assert |Concat(c)| == |Concat(body)| + |last|;
    }
    assert text[p + 1..e] == Concat(body) by {
      SliceBeforeLast(Concat(a), Concat(body), last);
    }
    assert ColumnText(text, Span(p + 1, e)) == text[p + 1..e];
  }

  lemma SliceBeforeLast(pre: seq<byte>, body: seq<byte>, last: seq<byte>)
    ensures var text := pre + [Quote] + (body + last) + [Quote];
      text[|pre| + 1..|pre| + 1 + |body|] == body
  {
    var text := pre + [Quote] + (body + last) + [Quote];
    assert text[|pre| + 1..|pre| + 1 + |body|] == body;
  }

  /** With the intended end offset, the column of a quoted field holds exactly its content. */
  lemma QuotedFieldKeepsContent(a: seq<Grapheme>, c: seq<Grapheme>)
    ensures
      var line := a + ([[Quote]] + c + [[Quote]]);
      var p := |Concat(a)|;
      && Concat(line) == Concat(a) + [Quote] + Concat(c) + [Quote]
      && ColumnText(Concat(line), Span(p + 1, FieldEnd(p, c, Intended))) == Concat(c)
  {
    var text := Concat(a) + [Quote] + Concat(c) + [Quote];
    QuotedLineText(a, c);
    assert text[|Concat(a)| + 1..|Concat(a)| + 1 + |Concat(c)|] == Concat(c);
  }

  /** The smallest input that shows the dropped grapheme: `"ab"` yields `a` instead of `ab`. */
  lemma QuotedFieldCounterexample()
    ensures
      var line: seq<Grapheme> := [[Quote], [0x61], [0x62], [Quote]];
      && Parse(line, AsWritten) == Ok([Span(1, 2)])
      && Concat(line) == [Quote, 0x61, 0x62, Quote]
      && Parse(line, Intended) == Ok([Span(1, 3)])
      && Texts(Concat(line), Parse(line, AsWritten).value) == [[0x61]]
      && Texts(Concat(line), Parse(line, Intended).value) == [[0x61, 0x62]]
  {
    var c: seq<Grapheme> := [[0x61], [0x62]];
    var line: seq<Grapheme> := [[Quote], [0x61], [0x62], [Quote]];
    assert [] + ([[Quote]] + c + [[Quote]]) == line;
    assert Concat(c[..1]) == [0x61] by {
      assert c[..1] == [] + [[0x61]];
      ConcatSnoc([], [0x61]);
    }
    assert Concat(c) == [0x61, 0x62] by {
      assert c == c[..1] + [[0x62]];
      ConcatSnoc(c[..1], [0x62]);
    }
    QuotedLineText([], c);
    assert Concat<byte>([]) == [];
    assert Run([], AsWritten) == Ok(Start) && Run([], Intended) == Ok(Start);
    QuotedLine([], c, AsWritten);
    QuotedLine([], c, Intended);
    assert FieldEnd(0, c, AsWritten) == 2 && FieldEnd(0, c, Intended) == 3;
    assert [] + [Span(1, 2)] == [Span(1, 2)] && [] + [Span(1, 3)] == [Span(1, 3)];
    var text: seq<byte> := [Quote, 0x61, 0x62, Quote];
    assert Concat(line) == text;
    assert text[1..2] == [0x61];
    assert text[1..3] == [0x61, 0x62];
  }

  /**
   * After a closing quote anything but a comma is rejected; with `g` a quote this is the doubled
   * quote `""` inside a field, which the parser does not treat as an escape.
   */
  lemma ClosedQuoteNeedsSeparator(a: seq<Grapheme>, c: seq<Grapheme>, g: Grapheme, rest: seq<Grapheme>, close: QuoteClose)
    requires Run(a, close).Ok? && AtFieldStart(Run(a, close).value)
    requires NoQuote(c) && !Is(g, Comma)
    ensures Parse(a + ([[Quote]] + c + [[Quote]]) + ([g] + rest), close) == Err(TextAfterClosingQuote)
  {
    var field := [[Quote]] + c + [[Quote]];
    var m := Run(a, close).value;
    QuotedField(m, c, close);
    var x := Steps(m, field, close).value;
    RunAppend(a, field, close);
    RunAppend(a + field, [g] + rest, close);
    StepsSnoc(x, [], g, close);
    assert [] + [g] == [g];
    StepsAppend(x, [g], rest, close);
  }

  /**
   * `""` inside a quoted field is no escaped quote: the first quote closes the field and the
   * second is text after it, so a line with `"c""` at any field start fails with the after-escape
   * error.
   */
  lemma DoubledQuoteFails(a: seq<Grapheme>, c: seq<Grapheme>, rest: seq<Grapheme>, close: QuoteClose)
    requires Run(a, close).Ok? && AtFieldStart(Run(a, close).value)
    requires NoQuote(c)
    ensures Parse(a + ([[Quote]] + c + [[Quote], [Quote]] + rest), close) == Err(TextAfterClosingQuote)
  {
    ClosedQuoteNeedsSeparator(a, c, [Quote], rest, close);
    assert a + ([[Quote]] + c + [[Quote]]) + ([[Quote]] + rest) == a + ([[Quote]] + c + [[Quote], [Quote]] + rest);
  }

  /** The line `"a""b"` fails as a whole: no column is returned. */
  lemma DoubledQuoteExample(close: QuoteClose)
    ensures Parse([[Quote], [0x61], [Quote], [Quote], [0x62], [Quote]], close) == Err(TextAfterClosingQuote)
  {
    var c: seq<Grapheme> := [[0x61]];
    var e: seq<Grapheme> := [];
    assert Run(e, close) == Ok(Start);
    DoubledQuoteFails(e, c, [[0x62], [Quote]], close);
    assert e + ([[Quote]] + c + [[Quote], [Quote]] + [[0x62], [Quote]]) == [[Quote], [0x61], [Quote], [Quote], [0x62], [Quote]];
  }

  // ----- Lines without quotes are split at every comma -----

  /** The piece `str::split` is still building at the end of `s`: the bytes after the last separator. */
  function Open(s: seq<byte>, sep: byte): (piece: seq<byte>)
    ensures sep !in piece
  {
    if s == [] then []
    else if s[|s| - 1] == sep then []
    else Open(s[..|s| - 1], sep) + [s[|s| - 1]]
  }

  /** The pieces `str::split` has finished in `s`, one per separator. */
  function Closed(s: seq<byte>, sep: byte): (pieces: seq<seq<byte>>)
    ensures forall piece <- pieces :: sep !in piece
  {
    if s == [] then []
    else if s[|s| - 1] == sep then Closed(s[..|s| - 1], sep) + [Open(s[..|s| - 1], sep)]
    else Closed(s[..|s| - 1], sep)
  }

  /** `str::split`: the pieces between the separators, the last one possibly empty. */
  function Split(s: seq<byte>, sep: byte): (pieces: seq<seq<byte>>)
    ensures |pieces| > 0
    ensures forall piece <- pieces :: sep !in piece
  {
    Closed(s, sep) + [Open(s, sep)]
  }

  function Join(pieces: seq<seq<byte>>, sep: byte): (r: seq<byte>)
    requires |pieces| > 0
  {
    if |pieces| == 1 then pieces[0] else Join(pieces[..|pieces| - 1], sep) + [sep] + pieces[|pieces| - 1]
  }

  /** Splitting loses nothing: joining the pieces with the separator gives the text back. */
  lemma {:induction false} SplitJoin(s: seq<byte>, sep: byte)
    ensures Join(Split(s, sep), sep) == s
  {
    if s != [] {
      var s', c := s[..|s| - 1], s[|s| - 1];
      assert s == s' + [c];
      SplitJoin(s', sep);
      var closed, open := Closed(s', sep), Open(s', sep);
      if c == sep {
        assert Split(s, sep) == (closed + [open]) + [[]];
        assert (closed + [open] + [[]])[..|closed| + 1] == closed + [open];
      } else {
        assert Split(s, sep) == closed + [open + [c]];
        if closed != [] {
          assert (closed + [open + [c]])[..|closed|] == closed;
          assert (closed + [open])[..|closed|] == closed;
        }
      }
    }
  }

  lemma SnocSep(s: seq<byte>, sep: byte)
    ensures Closed(s + [sep], sep) == Closed(s, sep) + [Open(s, sep)]
    ensures Open(s + [sep], sep) == []
  {
    assert (s + [sep])[..|s|] == s;
  }

  /** Text without a separator only lengthens the piece being built. */
  /** One byte other than the separator lengthens the open piece and closes none. */
  lemma SnocPlain(u: seq<byte>, c: byte, sep: byte)
    requires c != sep
    ensures Closed(u + [c], sep) == Closed(u, sep) && Open(u + [c], sep) == Open(u, sep) + [c]
  {
    SnocParts(u, c);
  }

  lemma {:induction false} AppendPlain(s: seq<byte>, g: seq<byte>, sep: byte)
    requires sep !in g
    ensures Closed(s + g, sep) == Closed(s, sep)
    ensures Open(s + g, sep) == Open(s, sep) + g
  {
    if g == [] {
      assert s + g == s;
    } else {
      var g', c := g[..|g| - 1], g[|g| - 1];
      FrontLast(g);
      assert c in g;
      AppendPlain(s, g', sep);
      AppendSnoc(s, g);
      SnocPlain(s + g', c, sep);
      assert (Open(s, sep) + g') + [c] == Open(s, sep) + g;
    }
  }

  lemma TextsExtend(line: seq<byte>, more: seq<byte>, spans: seq<Span>)
    requires forall s <- spans :: s.start <= s.end <= |line|
    ensures Texts(line + more, spans) == Texts(line, spans)
  {
    forall k | 0 <= k < |spans|
      ensures Texts(line + more, spans)[k] == Texts(line, spans)[k]
    {
      assert spans[k] in spans;
      assert (line + more)[spans[k].start..spans[k].end] == line[spans[k].start..spans[k].end];
    }
  }

  lemma TextsSnoc(line: seq<byte>, spans: seq<Span>, s: Span)
    requires forall t <- spans :: t.start <= t.end <= |line|
    requires s.start <= s.end <= |line|
    ensures Texts(line, spans + [s]) == Texts(line, spans) + [ColumnText(line, s)]
  {
    assert forall t <- spans + [s] :: t in spans || t == s;
    assert Texts(line, spans + [s])[..|spans|] == Texts(line, spans);
  }


  /** A line segmentation with no quote grapheme, in which a comma byte only ever stands alone. */
  predicate PlainSegments(gs: seq<Grapheme>)
  {
    forall g <- gs :: g != [] && !Is(g, Quote) && (Comma in g ==> Is(g, Comma))
  }

  /** The split pieces without the final one when that one is empty. */
  function DropLastEmpty(pieces: seq<seq<byte>>): (r: seq<seq<byte>>)
    requires |pieces| > 0
  {
    if pieces[|pieces| - 1] == [] then pieces[..|pieces| - 1] else pieces
  }

  /** What the machine holds after a plain prefix with text `text`: the finished pieces as columns. */
  predicate PlainInvariant(text: seq<byte>, m: Machine)
    requires Bounded(m) && m.lastPos == |text|
  {
    && (if m.state == Initial then text == [] && m.cols == []
        else if m.state.Column? then text[m.state.start..] == Open(text, Comma) != []
        else m.state == Separator && Open(text, Comma) == [])
    && Texts(text, m.cols) == Closed(text, Comma)
  }

  /** A comma in a plain line emits the piece being built as a column. */
  lemma PlainComma(text: seq<byte>, m: Machine, close: QuoteClose)
    requires Bounded(m) && m.lastPos == |text| && PlainInvariant(text, m)
    requires m.state != Initial
    ensures Step(m, [Comma], close).Ok? && Bounded(Step(m, [Comma], close).value)
    ensures Step(m, [Comma], close).value.lastPos == |text + [Comma]|
    ensures PlainInvariant(text + [Comma], Step(m, [Comma], close).value)
  {
    StepBounded(m, [Comma], close);
    var text' := text + [Comma];
    TextsExtend(text, [Comma], m.cols);
    SnocSep(text, Comma);
    var s := if m.state.Column? then Span(m.state.start, |text|) else Span(|text|, |text|);
    TextsSnoc(text', m.cols, s);
    assert ColumnText(text', s) == Open(text, Comma);
  }

  /**
   * A non-empty grapheme of a plain line that is no quote and holds no comma byte extends the
   * piece being built.
   */
  lemma PlainOther(text: seq<byte>, m: Machine, g: Grapheme, close: QuoteClose)
    requires Bounded(m) && m.lastPos == |text| && PlainInvariant(text, m)
    requires g != [] && !Is(g, Quote) && Comma !in g
    ensures Step(m, g, close).Ok? && Bounded(Step(m, g, close).value)
    ensures Step(m, g, close).value.lastPos == |text + g|
    ensures PlainInvariant(text + g, Step(m, g, close).value)
  {
    assert !Is(g, Comma) by {
      assert |g| == 1 ==> g[0] in g;
    }
    var m' := Advance(m, if m.state.Column? then m.state else Column(m.lastPos), m.cols, g);
    assert Step(m, g, close) == Ok(m');
    StepBounded(m, g, close);
    assert Texts(text + g, m'.cols) == Closed(text + g, Comma) by {
      TextsExtend(text, g, m.cols);
      AppendPlain(text, g, Comma);
    }
    assert (text + g)[m'.state.start..] == Open(text + g, Comma) != [] by {
      AppendPlain(text, g, Comma);
      SliceAppend(text, g, m'.state.start);
      assert m.state.Column? ==> text[m.state.start..] == Open(text, Comma);
      assert !m.state.Column? ==> text[|text|..] == [] == Open(text, Comma);
    }
  }

  lemma SliceAppend(text: seq<byte>, g: seq<byte>, k: nat)
    requires k <= |text|
    ensures (text + g)[k..] == text[k..] + g
  {
  }

  /**
   * One grapheme of a plain line, whichever kind it is: a comma cluster of its own (not first),
   * or a non-empty, quote-free cluster with no comma byte.
   */
  lemma PlainGrapheme(text: seq<byte>, m: Machine, g: Grapheme, close: QuoteClose)
    requires Bounded(m) && m.lastPos == |text| && PlainInvariant(text, m)
    requires g != [] && !Is(g, Quote) && (Comma in g ==> Is(g, Comma))
    requires m.state == Initial ==> !Is(g, Comma)
    ensures Step(m, g, close).Ok? && Bounded(Step(m, g, close).value)
    ensures Step(m, g, close).value.lastPos == |text + g|
    ensures PlainInvariant(text + g, Step(m, g, close).value)
    ensures Step(m, g, close).value.state != Initial
  {
    StepBounded(m, g, close);
    if Is(g, Comma) {
      assert g == [Comma];
      PlainComma(text, m, close);
    } else {
      PlainOther(text, m, g, close);
    }
  }

  lemma {:induction false} PlainPrefix(gs: seq<Grapheme>, close: QuoteClose)
    requires PlainSegments(gs)
    requires gs == [] || !Is(gs[0], Comma)
    ensures Run(gs, close).Ok? && Bounded(Run(gs, close).value) && Run(gs, close).value.lastPos == |Concat(gs)|
    ensures PlainInvariant(Concat(gs), Run(gs, close).value)
    ensures gs != [] ==> Run(gs, close).value.state != Initial
  {
    if gs != [] {
      var a, g := gs[..|gs| - 1], gs[|gs| - 1];
      PlainSegmentsFront(gs);
      PlainPrefix(a, close);
      var m := Run(a, close).value;
      assert gs == a + [g];
      assert Run(gs, close) == Step(m, g, close) by {
        RunSnoc(a, g, close);
      }
      assert Concat(gs) == Concat(a) + g by {
        ConcatSnoc(a, g);
      }
      PlainGrapheme(Concat(a), m, g, close);
    }
  }

  /** A plain line without a leading comma, less its last grapheme, is one too; the last grapheme is plain. */
  lemma PlainSegmentsFront(gs: seq<Grapheme>)
    requires gs != [] && PlainSegments(gs) && !Is(gs[0], Comma)
    ensures var a, g := gs[..|gs| - 1], gs[|gs| - 1];
      && PlainSegments(a) && (a == [] || !Is(a[0], Comma))
      && g != [] && !Is(g, Quote) && (Comma in g ==> Is(g, Comma))
      && (a == [] ==> !Is(g, Comma))
  {
    var a, g := gs[..|gs| - 1], gs[|gs| - 1];
    assert g in gs;
    assert forall h <- a :: h in gs;
    assert a != [] ==> a[0] == gs[0];
    assert a == [] ==> g == gs[0];
  }

  /** Finishing a plain line flushes the piece being built unless it is empty. */
  lemma PlainFinish(text: seq<byte>, m: Machine)
    requires Bounded(m) && m.lastPos == |text| && PlainInvariant(text, m)
    ensures forall s <- Finish(m) :: s.start <= s.end <= |text|
    ensures Texts(text, Finish(m)) == DropLastEmpty(Split(text, Comma))
  {
    var closed := Closed(text, Comma);
    assert (closed + [Open(text, Comma)])[..|closed|] == closed;
    if m.state.Column? {
      TextsSnoc(text, m.cols, Span(m.state.start, m.lastPos));
      assert ColumnText(text, Span(m.state.start, m.lastPos)) == text[m.state.start..];
    }
  }

  /**
   * A quote-free line that does not start with a comma, and in which every comma is a cluster of
   * its own, is cut exactly where `split(',')` cuts it, except that the final empty piece (after a
   * trailing comma, or of an empty line) is not emitted.
   */
  lemma PlainLineIsSplit(gs: seq<Grapheme>, close: QuoteClose)
    requires PlainSegments(gs)
    requires gs == [] || !Is(gs[0], Comma)
    ensures Parse(gs, close).Ok?
    ensures forall s <- Parse(gs, close).value :: s.start <= s.end <= |Concat(gs)|
    ensures Texts(Concat(gs), Parse(gs, close).value) == DropLastEmpty(Split(Concat(gs), Comma))
  {
    PlainPrefix(gs, close);
    PlainFinish(Concat(gs), Run(gs, close).value);
  }
}
