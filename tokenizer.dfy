/**
 * The template tokenizer of src/engine/tokenizer.rs.
 *
 * `tokenize` reads the template one character at a time. A first `{` or `}` only sets a flag; the
 * second one of the same kind clears it and opens a new buffer: an expression buffer after `{{`,
 * a text buffer after `}}`. Braces are never stored; every other character is pushed onto the
 * newest buffer. The two buffer kinds are one class here, told apart by `kind`.
 */
module Tokenizer {

  datatype Kind = Text | Expression

  /** `TextBuffer` and `ExpressionBuffer`: a growing string, rendered according to the kind. */
  class TokenBuffer {
    const kind: Kind
    var buffer: string

    constructor (kind: Kind)
      ensures this.kind == kind && buffer == []
    {
      this.kind := kind;
      buffer := [];
    }

    /** `push`: appends one character. */
    method Push(ch: char)
      modifies this
      ensures buffer == old(buffer) + [ch]
    {
      buffer := buffer + [ch];
    }

    /** `render`: a text buffer renders its contents, an expression buffer a fixed placeholder. */
    function Render(): (s: string)
      reads this
      ensures kind == Text ==> s == buffer
      ensures kind == Expression ==> s == "Expression token"
    {
      match kind
      case Text => buffer
      case Expression => "Expression token"
    }
  }

  // ---------------------------------------------------------------------------------------------
  // The same loop on values.

  /** What a buffer holds. */
  datatype Token = Token(kind: Kind, text: string)

  /** The loop's state: the tokens so far and the two flags `start` and `end`. */
  datatype Scanner = Scanner(tokens: seq<Token>, start: bool, end: bool)

  const Initial := Scanner([Token(Text, [])], false, false)

  function ScanStep(s: Scanner, ch: char): (r: Scanner)
    ensures s.tokens != [] ==> r.tokens != []
  {
    if ch == '{' then
      if s.start then Scanner(s.tokens + [Token(Expression, [])], false, s.end) else s.(start := true)
    else if ch == '}' then
      if s.end then Scanner(s.tokens + [Token(Text, [])], s.start, false) else s.(end := true)
    else if s.tokens == [] then s // never taken: the scan starts with one token and only adds more
    else
      var last := s.tokens[|s.tokens| - 1];
      s.(tokens := s.tokens[..|s.tokens| - 1] + [last.(text := last.text + [ch])])
  }

  function Scan(template: string): (r: Scanner)
    ensures r.tokens != []
  {
    if template == [] then Initial else ScanStep(Scan(template[..|template| - 1]), template[|template| - 1])
  }

  /** The tokens `tokenize` returns for `template`. */
  function Tokens(template: string): (ts: seq<Token>)
    ensures ts != []
  {
    Scan(template).tokens
  }

  /** How often `c` occurs in `s`. */
  function Count(s: string, c: char): (r: nat)
  {
    if s == [] then 0 else Count(s[..|s| - 1], c) + if s[|s| - 1] == c then 1 else 0
  }

  /** The template with its braces removed. */
  function Unbraced(s: string): (r: string)
  {
    if s == [] then []
    else Unbraced(s[..|s| - 1]) + if s[|s| - 1] == '{' || s[|s| - 1] == '}' then [] else [s[|s| - 1]]
  }

  /** The texts of the tokens, one after the other. */
  function Joined(ts: seq<Token>): (r: string)
  {
    if ts == [] then [] else Joined(ts[..|ts| - 1]) + ts[|ts| - 1].text
  }

  /** How many tokens are of kind `k`. */
  function CountKind(ts: seq<Token>, k: Kind): (r: nat)
  {
    if ts == [] then 0 else CountKind(ts[..|ts| - 1], k) + if ts[|ts| - 1].kind == k then 1 else 0
  }

  lemma JoinedSnoc(ts: seq<Token>, t: Token)
    ensures Joined(ts + [t]) == Joined(ts) + t.text
    ensures CountKind(ts + [t], t.kind) == CountKind(ts, t.kind) + 1
    ensures forall k :: k != t.kind ==> CountKind(ts + [t], k) == CountKind(ts, k)
  {
    assert (ts + [t])[..|ts|] == ts;
  }

  /** What one character does to the flags, the counts of each kind and the joined text. */
  lemma StepFacts(s: Scanner, ch: char)
    requires s.tokens != []
    ensures var r := ScanStep(s, ch);
      && r.tokens != [] && r.tokens[0].kind == s.tokens[0].kind
      && r.start == (if ch == '{' then !s.start else s.start)
      && r.end == (if ch == '}' then !s.end else s.end)
      && CountKind(r.tokens, Expression) == CountKind(s.tokens, Expression) + (if ch == '{' && s.start then 1 else 0)
      && CountKind(r.tokens, Text) == CountKind(s.tokens, Text) + (if ch == '}' && s.end then 1 else 0)
      && Joined(r.tokens) == Joined(s.tokens) + (if ch == '{' || ch == '}' then [] else [ch])
  {
    if ch == '{' && s.start {
      OpenToken(s.tokens, Expression);
    } else if ch == '}' && s.end {
      OpenToken(s.tokens, Text);
    } else if ch != '{' && ch != '}' {
      PushToNewest(s.tokens, ch);
    }
  }

  lemma OpenToken(ts: seq<Token>, k: Kind)
    requires ts != []
    ensures var r := ts + [Token(k, [])];
      && r[0] == ts[0]
      && CountKind(r, k) == CountKind(ts, k) + 1
      && (forall k' :: k' != k ==> CountKind(r, k') == CountKind(ts, k'))
      && Joined(r) == Joined(ts)
  {
    JoinedSnoc(ts, Token(k, []));
  }

  lemma PushToNewest(ts: seq<Token>, ch: char)
    requires ts != []
    ensures var last := ts[|ts| - 1];
      var r := ts[..|ts| - 1] + [last.(text := last.text + [ch])];
      && r[0].kind == ts[0].kind
      && (forall k :: CountKind(r, k) == CountKind(ts, k))
      && Joined(r) == Joined(ts) + [ch]
  {
    var last := ts[|ts| - 1];
    var body := ts[..|ts| - 1];
    var last' := last.(text := last.text + [ch]);
    assert ts == body + [last];
    JoinedSnoc(body, last);
    JoinedSnoc(body, last');
    if body != [] {
      assert (body + [last'])[0] == body[0];
    }
  }

  /**
   * What `tokenize` keeps track of, after any prefix of the template:
   * - the flags record whether an odd number of `{` and of `}` has been read;
   * - the tokens are never empty and the first one is a text token;
   * - every second `{` has opened an expression token and every second `}` a text token after
   *   the first one;
   * - no brace is stored and no other character is lost: the texts spell the unbraced template.
   */
  lemma ScanInvariant(template: string)
    ensures Scan(template).start <==> Count(template, '{') % 2 == 1
    ensures Scan(template).end <==> Count(template, '}') % 2 == 1
    ensures Tokens(template) != [] && Tokens(template)[0].kind == Text
    ensures CountKind(Tokens(template), Expression) == Count(template, '{') / 2
    ensures CountKind(Tokens(template), Text) == 1 + Count(template, '}') / 2
    ensures Joined(Tokens(template)) == Unbraced(template)
  {
    ScanFlags(template);
    ScanCounts(template);
    ScanText(template);
  }

  lemma {:induction false} ScanFlags(template: string)
    ensures Scan(template).start <==> Count(template, '{') % 2 == 1
    ensures Scan(template).end <==> Count(template, '}') % 2 == 1
    ensures Tokens(template) != [] && Tokens(template)[0].kind == Text
  {
    if template != [] {
      var front, ch := template[..|template| - 1], template[|template| - 1];
      ScanFlags(front);
      StepFlags(Scan(front), ch);
      var o, c := Count(front, '{'), Count(front, '}');
      assert Count(template, '{') == o + if ch == '{' then 1 else 0;
      assert Count(template, '}') == c + if ch == '}' then 1 else 0;
      Parity(o);
      Parity(c);
    }
  }

  /** What one character does to the flags; the first token keeps its kind. */
  lemma StepFlags(s: Scanner, ch: char)
    requires s.tokens != []
    ensures var r := ScanStep(s, ch);
      && r.tokens != [] && r.tokens[0].kind == s.tokens[0].kind
      && r.start == (if ch == '{' then !s.start else s.start)
      && r.end == (if ch == '}' then !s.end else s.end)
  {
    var ts := s.tokens;
    if ch != '{' && ch != '}' && |ts| > 1 {
      var last := ts[|ts| - 1];
      assert (ts[..|ts| - 1] + [last.(text := last.text + [ch])])[0] == ts[0];
    }
  }

  lemma {:induction false} ScanCounts(template: string)
    ensures CountKind(Tokens(template), Expression) == Count(template, '{') / 2
    ensures CountKind(Tokens(template), Text) == 1 + Count(template, '}') / 2
  {
    if template == [] {
      JoinedSnoc([], Token(Text, []));
      assert [] + [Token(Text, [])] == [Token(Text, [])];
    } else {
      var front, ch := template[..|template| - 1], template[|template| - 1];
      ScanFlags(front);
      ScanCounts(front);
      StepFacts(Scan(front), ch);
      var o, c := Count(front, '{'), Count(front, '}');
      assert Count(template, '{') == o + if ch == '{' then 1 else 0;
      assert Count(template, '}') == c + if ch == '}' then 1 else 0;
      Parity(o);
      Parity(c);
    }
  }

  lemma {:induction false} ScanText(template: string)
    ensures Joined(Tokens(template)) == Unbraced(template)
  {
    if template == [] {
      JoinedSnoc([], Token(Text, []));
      assert [] + [Token(Text, [])] == [Token(Text, [])];
    } else {
      var front, ch := template[..|template| - 1], template[|template| - 1];
      ScanFlags(front);
      ScanText(front);
      StepFacts(Scan(front), ch);
    }
  }

  /** One more brace flips the parity, and completes a pair exactly when the count was odd. */
  lemma Parity(c: nat)
    ensures (c + 1) % 2 == 1 <==> c % 2 != 1
    ensures (c + 1) / 2 == c / 2 + if c % 2 == 1 then 1 else 0
  {
  }

  /** The number of tokens: one, plus one per pair of `{` and one per pair of `}`. */
  lemma TokenCount(template: string)
    ensures |Tokens(template)| == 1 + Count(template, '{') / 2 + Count(template, '}') / 2
  {
    ScanInvariant(template);
    CountKindsAddUp(Tokens(template));
  }

  lemma {:induction false} CountKindsAddUp(ts: seq<Token>)
    ensures CountKind(ts, Expression) + CountKind(ts, Text) == |ts|
  {
    if ts != [] {
      CountKindsAddUp(ts[..|ts| - 1]);
    }
  }

  /** A character other than a brace goes to the newest token, whatever its kind. */
  lemma NonBraceToNewest(template: string, ch: char)
    requires ch != '{' && ch != '}'
    ensures
      var ts := Tokens(template);
      ts != [] ==> Tokens(template + [ch]) == ts[..|ts| - 1] + [ts[|ts| - 1].(text := ts[|ts| - 1].text + [ch])]
  {
    assert (template + [ch])[..|template|] == template;
  }

  /** A lone brace is dropped rather than kept as text. */
  lemma LoneBraceDropped()
    ensures Tokens("a{b") == [Token(Text, "ab")]
    ensures Tokens("a}b") == [Token(Text, "ab")]
  {
    LoneBraceBetween('{');
    LoneBraceBetween('}');
  }

  /** `a`, then one brace, then `b`: the brace only sets its flag and `b` joins `a`. */
  lemma LoneBraceBetween(brace: char)
    requires brace == '{' || brace == '}'
    ensures Scan(['a', brace, 'b']).tokens == [Token(Text, "ab")]
  {
    var a := Scanner([Token(Text, "a")], false, false);
    assert Scan("a") == a by {
      assert "a"[..0] == [];
      var e: string := [];
      assert e + ['a'] == "a";
      assert Initial.tokens[..0] + [Token(Text, e + ['a'])] == [Token(Text, "a")];
    }
    var flagged := if brace == '{' then a.(start := true) else a.(end := true);
    assert Scan(['a', brace]) == flagged by {
      assert ['a', brace][..1] == "a";
    }
    assert ['a', brace, 'b'][..2] == ['a', brace];
    assert Scan(['a', brace, 'b']) == ScanStep(flagged, 'b');
    assert "a" + ['b'] == "ab";
    assert a.tokens[..0] + [Token(Text, "a" + ['b'])] == [Token(Text, "ab")];
  }

  /** Only a second `{` clears the flag: characters between the two braces do not reset it. */
  lemma FlagSurvivesText()
    ensures Tokens("{a{") == [Token(Text, "a"), Token(Expression, [])]
  {
    assert Scan("{") == Initial.(start := true) by {
      assert "{"[..0] == [];
    }
    assert Scan("{a") == Scanner([Token(Text, "a")], true, false) by {
      assert "{a"[..1] == "{";
      var e: string := [];
      assert e + ['a'] == "a";
      assert Initial.tokens[..0] + [Token(Text, e + ['a'])] == [Token(Text, "a")];
    }
    assert Scan("{a{") == Scanner([Token(Text, "a"), Token(Expression, [])], false, false) by {
      assert "{a{"[..2] == "{a";
    }
  }

  /** An expression still open at the end of the template is returned as it stands. */
  lemma OpenExpressionKept()
    ensures Tokens("{{x") == [Token(Text, []), Token(Expression, "x")]
  {
    assert Scan("{") == Initial.(start := true) by {
      assert "{"[..0] == [];
    }
    assert Scan("{{") == Scanner([Token(Text, []), Token(Expression, [])], false, false) by {
      assert "{{"[..1] == "{";
    }
    assert Scan("{{x") == Scanner([Token(Text, []), Token(Expression, "x")], false, false) by {
      assert "{{x"[..2] == "{{";
      var ts := [Token(Text, []), Token(Expression, [])];
      var e: string := [];
      assert e + ['x'] == "x";
      assert ts[..1] + [Token(Expression, e + ['x'])] == [Token(Text, []), Token(Expression, "x")];
    }
  }

  // ---------------------------------------------------------------------------------------------
  // The loop itself, over freshly allocated buffers.

  /** The buffers hold, in order, the given tokens. */
  predicate Mirrors(bs: seq<TokenBuffer>, ts: seq<Token>)
    reads bs
  {
    |bs| == |ts| && forall i :: 0 <= i < |bs| ==> bs[i].kind == ts[i].kind && bs[i].buffer == ts[i].text
  }

  predicate Distinct(bs: seq<TokenBuffer>)
  {
    forall i, j :: 0 <= i < j < |bs| ==> bs[i] != bs[j]
  }

  /** `tokenize`. */
  method Tokenize(template: string) returns (tokens: seq<TokenBuffer>)
    ensures Mirrors(tokens, Tokens(template)) && Distinct(tokens)
    ensures forall b <- tokens :: fresh(b)
  {
    var first := new TokenBuffer(Text);
    tokens := [first];
    var start, end := false, false;
    for k := 0 to |template|
      invariant Mirrors(tokens, Tokens(template[..k])) && Distinct(tokens)
      invariant start == Scan(template[..k]).start && end == Scan(template[..k]).end
      invariant forall b <- tokens :: fresh(b)
    {
      ScanFlags(template[..k]);
      ScanPrefix(template, k);
      assert tokens[|tokens| - 1] in tokens;
      tokens, start, end := Consume(tokens, start, end, template[k], Scan(template[..k]));
    }
    assert template[..|template|] == template;
  }

  /** The body of the loop: one character of the template, one step of the scan. */
  method Consume(tokens: seq<TokenBuffer>, start: bool, end: bool, ch: char, ghost s: Scanner)
    returns (tokens': seq<TokenBuffer>, start': bool, end': bool)
    requires Mirrors(tokens, s.tokens) && Distinct(tokens) && s.tokens != []
    requires start == s.start && end == s.end
    modifies tokens[|tokens| - 1]
    ensures Mirrors(tokens', ScanStep(s, ch).tokens) && Distinct(tokens')
    ensures start' == ScanStep(s, ch).start && end' == ScanStep(s, ch).end
    ensures forall b <- tokens' :: b in tokens || fresh(b)
  {
    tokens', start', end' := tokens, start, end;
    if ch == '{' {
      if start {
        var b := NewBuffer(tokens, s.tokens, Expression);
        tokens' := tokens + [b];
        start' := false;
      } else {
        start' := true;
      }
    } else if ch == '}' {
      if end {
        var b := NewBuffer(tokens, s.tokens, Text);
        tokens' := tokens + [b];
        end' := false;
      } else {
        end' := true;
      }
    } else {
      PushNewest(tokens, s.tokens, ch);
    }
  }

  /** Reading one more character of the template is one more step of the scan. */
  lemma ScanPrefix(template: string, k: nat)
    requires k < |template|
    ensures Scan(template[..k + 1]) == ScanStep(Scan(template[..k]), template[k])
  {
    assert template[..k + 1][..k] == template[..k];
  }

  /** A new, empty buffer of the given kind, to be placed after the others. */
  method NewBuffer(tokens: seq<TokenBuffer>, ghost ts: seq<Token>, kind: Kind) returns (b: TokenBuffer)
    requires Mirrors(tokens, ts) && Distinct(tokens)
    ensures fresh(b)
    ensures Mirrors(tokens + [b], ts + [Token(kind, [])]) && Distinct(tokens + [b])
  {
    b := new TokenBuffer(kind);
  }

  /** Pushes one character onto the newest buffer. */
  method PushNewest(tokens: seq<TokenBuffer>, ghost ts: seq<Token>, ch: char)
    requires Mirrors(tokens, ts) && Distinct(tokens) && tokens != []
    modifies tokens[|tokens| - 1]
    ensures Mirrors(tokens, ts[..|ts| - 1] + [ts[|ts| - 1].(text := ts[|ts| - 1].text + [ch])])
  {
    var last := tokens[|tokens| - 1];
    last.Push(ch);
  }
}
