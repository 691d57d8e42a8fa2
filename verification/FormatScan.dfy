/** What the scanner sees of the formatter: the same tokens in the same places, and the same
    texts exactly when every line that begins inside a token is left as it was. */
module FormatScan {
  import opened Text
  import opened Lexer
  import opened LexerLaws
  import opened LineScan
  import opened Formatter

  /** Every physical line that begins inside a token is already as the formatter writes it at
      its depth; `inside` says whether `s` begins inside one. */
  predicate Untouched(s: string, depth: nat, inside: bool)
    decreases |s|
  {
    s == [] ||
    var l := FirstLine(s);
    (inside ==> FormatLine(l, depth) == l) &&
    Untouched(AfterLine(s), DepthAfter(Trim(l), depth), EndsInside(l, inside))
  }

  /** As many tokens, on the same lines. */
  predicate SamePlaces(a: seq<Token>, b: seq<Token>) {
    |a| == |b| && forall i :: 0 <= i < |a| ==> a[i].line == b[i].line
  }

  /** The formatter ends every line, so it adds the newline a last line lacks. */
  function AddedLines(s: string): nat {
    if s == [] || s[|s| - 1] == '\n' then 0 else 1
  }

  // ---- Padding ----

  ghost predicate AllBlank(pad: string) {
    forall c <- pad :: IsBlankChar(c)
  }

  lemma {:induction false} PadBody(pad: string, t: string)
    requires AllBlank(pad)
    ensures Closing(pad + t) == Later(Closing(t), |pad|) && HidesNewline(pad + t) == HidesNewline(t)
  {
    if pad == [] {
      assert pad + t == t;
    } else {
      assert pad[0] in pad && (pad + t)[1..] == pad[1..] + t;
      PadBody(pad[1..], t);
    }
  }

  lemma {:induction false} PadLine(pad: string, t: string, line: nat)
    requires AllBlank(pad)
    ensures LineFrom(pad + t, line) == LineFrom(t, line)
  {
    if pad == [] {
      assert pad + t == t;
    } else {
      assert pad[0] in pad && (pad + t)[1..] == pad[1..] + t;
      PadLine(pad[1..], t, line);
    }
  }

  /** Inside a literal, padding belongs to its text. */
  lemma PadOpen(text: string, pad: string, t: string, line: nat)
    requires AllBlank(pad)
    ensures LineOf(Some(text), pad + t, line) == LineOf(Some(text + pad), t, line)
  {
    PadBody(pad, t);
    match Closing(t)
    case None =>
      assert text + (pad + t) + "\n" == text + pad + t + "\n";
    case Some(n) =>
      assert (pad + t)[|pad| + n..] == t[n..] && text + (pad + t)[..|pad| + n] == text + pad + t[..n];
  }

  function Pad(l: string): string {
    l[..Span(l, IsBlankChar)]
  }

  lemma Padded(l: string, depth: nat)
    ensures l == Pad(l) + Trim(l) && AllBlank(Pad(l))
    ensures FormatLine(l, depth) == Indentation(DepthOf(Trim(l), depth)) + Trim(l)
    ensures AllBlank(Indentation(DepthOf(Trim(l), depth)))
  {
  }

  // ---- Two literals whose texts differ ----

  /** The texts of literals that are open in the two sources: the same, or both ending a line,
      after as many lines. */
  predicate Matching(open: Option<string>, other: Option<string>) {
    open == other ||
    (open.Some? && other.Some? && EndsLine(open.value) && EndsLine(other.value) &&
     CountNewlines(open.value) == CountNewlines(other.value))
  }

  predicate EndsLine(s: string) {
    s != [] && s[|s| - 1] == '\n'
  }

  /** Where the last of as many lines ends, is decided by the text. */
  lemma LinesDecide(a: string, x: string, b: string, y: string)
    requires EndsLine(a) && EndsLine(b) && CountNewlines(a) == CountNewlines(b)
    requires a + x == b + y
    ensures a == b && x == y
  {
    if |a| < |b| {
      LongerHasMore(a, b, x, y);
    } else if |b| < |a| {
      LongerHasMore(b, a, y, x);
    } else {
      assert a == (a + x)[..|a|] && b == (b + y)[..|b|];
      assert x == (a + x)[|a|..] && y == (b + y)[|b|..];
    }
  }

  lemma LongerHasMore(a: string, b: string, x: string, y: string)
    requires |a| < |b| && EndsLine(b) && a + x == b + y
    ensures CountNewlines(a) < CountNewlines(b)
  {
    var more, n := b[|a|..], |b| - |a| - 1;
    assert b[..|a|] == (b + y)[..|a|] == (a + x)[..|a|] == a;
    assert b == a + more && more == more[..n] + "\n";
    CountNewlinesConcat(a, more);
    CountNewlinesConcat(more[..n], "\n");
  }

  lemma TextsConcat(a: seq<Token>, b: seq<Token>)
    ensures Texts(a + b) == Texts(a) + Texts(b)
  {
  }

  lemma TextsSplit(a: seq<Token>, b: seq<Token>, c: seq<Token>, d: seq<Token>)
    requires |a| == |c|
    ensures Texts(a + b) == Texts(c + d) <==> Texts(a) == Texts(c) && Texts(b) == Texts(d)
  {
    TextsConcat(a, b);
    TextsConcat(c, d);
    assert Texts(a) == (Texts(a) + Texts(b))[..|a|] && Texts(c) == (Texts(c) + Texts(d))[..|a|];
    assert Texts(b) == (Texts(a) + Texts(b))[|a|..] && Texts(d) == (Texts(c) + Texts(d))[|a|..];
  }

  /** What both sources say of a line: the same places, the same state behind it, and the same
      texts exactly if `same`. */
  ghost predicate Alike(p: Part, q: Part, same: bool) {
    && SamePlaces(p.tokens, q.tokens) && p.line == q.line && Matching(p.open, q.open)
    && (Texts(p.tokens) == Texts(q.tokens) && p.open == q.open <==> same)
  }

  /** The rest of a line behind two literals, `x` and `y` so far. */
  lemma SameRest(x: string, y: string, t: string, line: nat)
    requires '\n' !in t && CountNewlines(x) == CountNewlines(y)
    ensures Alike(LineOf(Some(x), t, line), LineOf(Some(y), t, line), x == y)
  {
    match Closing(t)
    case None =>
      SameSuffix(x, y, t + "\n");
      assert x + (t + "\n") == x + t + "\n" && y + (t + "\n") == y + t + "\n";
      CountNewlinesConcat(x, t + "\n");
      CountNewlinesConcat(y, t + "\n");
    case Some(n) =>
      var p := LineFrom(t[n..], line);
      SameSuffix(x, y, t[..n]);
      TextsSplit([Token(x + t[..n], line)], p.tokens, [Token(y + t[..n], line)], p.tokens);
      assert Texts([Token(x + t[..n], line)])[0] == x + t[..n];
      assert Texts([Token(y + t[..n], line)])[0] == y + t[..n];
  }

  lemma SameSuffix(x: string, y: string, z: string)
    ensures x + z == y + z <==> x == y
  {
    if x + z == y + z {
      assert x == (x + z)[..|x|] && y == (y + z)[..|y|];
    }
  }

  /** One line and its formatted version. */
  lemma LineAlike(open: Option<string>, other: Option<string>, l: string, depth: nat, line: nat)
    requires '\n' !in l && Matching(open, other)
    ensures Alike(LineOf(open, l, line), LineOf(other, FormatLine(l, depth), line),
                  open == other && (open.Some? ==> FormatLine(l, depth) == l))
  {
    var p, q, t := Pad(l), Indentation(DepthOf(Trim(l), depth)), Trim(l);
    Padded(l, depth);
    if open.None? {
      PadLine(p, t, line);
      PadLine(q, t, line);
    } else {
      var x, y := open.value, other.value;
      PadOpen(x, p, t, line);
      PadOpen(y, q, t, line);
      CountNewlinesNone(p);
      CountNewlinesNone(q);
      CountNewlinesConcat(x, p);
      CountNewlinesConcat(y, q);
      SameRest(x + p, y + q, t, line);
      SameSuffix(p, q, t);
      PaddedTexts(x, p, y, q);
    }
  }

  lemma PaddedTexts(x: string, p: string, y: string, q: string)
    requires Matching(Some(x), Some(y))
    ensures x + p == y + q <==> x == y && p == q
  {
    if x + p == y + q {
      if x == y {
        assert p == (x + p)[|x|..] && q == (y + q)[|x|..];
      } else {
        LinesDecide(x, p, y, q);
      }
    }
  }

  // ---- Line after line ----

  /** The two scans are alike: same places, the end `added` lines further on, and the same texts
      exactly if `same`. */
  ghost predicate Comparable(a: Scan, b: Scan, added: nat, same: bool) {
    && a.Lexed? && b.Lexed? && SamePlaces(a.tokens, b.tokens) && b.endLine == a.endLine + added
    && (Texts(a.tokens) == Texts(b.tokens) <==> same)
  }

  lemma ComparablePrepend(a: Scan, b: Scan, added: nat, ts: seq<Token>, us: seq<Token>, same: bool)
    requires Comparable(a, b, added, same) && SamePlaces(ts, us)
    ensures Comparable(a.Prepend(ts), b.Prepend(us), added, Texts(ts) == Texts(us) && same)
  {
    TextsSplit(ts, a.tokens, us, b.tokens);
  }

  /** From any line on, inside a literal or not. */
  lemma {:induction false} FormatComparable(open: Option<string>, other: Option<string>, s: string, depth: nat, line: nat)
    requires Matching(open, other) && LexOpen(open, s, line).Lexed?
    ensures Comparable(LexOpen(open, s, line), LexOpen(other, FormatFrom(s, depth), line), AddedLines(s),
                       open == other && Untouched(s, depth, open.Some?))
    decreases |s|
  {
    if s != [] {
      var l, rest := FirstLine(s), AfterLine(s);
      var after := DepthAfter(Trim(l), depth);
      var p, q := LineOf(open, l, line), LineOf(other, FormatLine(l, depth), line);
      LineAlike(open, other, l, depth, line);
      FirstLineScans(open, s, line);
      FormattedScans(other, s, depth, line);
      FormatComparable(p.open, q.open, rest, after, p.line);
      var same := p.open == q.open && Untouched(rest, after, p.open.Some?);
      ComparablePrepend(LexOpen(p.open, rest, p.line), LexOpen(q.open, FormatFrom(rest, after), p.line),
                        AddedLines(rest), p.tokens, q.tokens, same);
      LineOfOpens(open, l, line);
    }
  }

  /** The scan of a source by its first line; a last line without a newline ends one line early. */
  lemma FirstLineScans(open: Option<string>, s: string, line: nat)
    requires s != [] && LexOpen(open, s, line).Lexed?
    ensures var p := LineOf(open, FirstLine(s), line);
            var tail := LexOpen(p.open, AfterLine(s), p.line);
            tail.Lexed? && LexOpen(open, s, line).tokens == tail.Prepend(p.tokens).tokens &&
            LexOpen(open, s, line).endLine + AddedLines(s) == tail.endLine + AddedLines(AfterLine(s))
  {
    var l, rest := FirstLine(s), AfterLine(s);
    if |l| < |s| {
      assert s == l + "\n" + rest && AddedLines(rest) == AddedLines(s);
      LineJoins(open, l, rest, line);
    } else {
      WholeLine(s);
      LastLine(open, l, line);
      NothingAppended(LineOf(open, l, line).tokens);
    }
  }

  lemma NothingAppended(ts: seq<Token>)
    ensures ts + [] == ts
  {
  }

  lemma FormattedScans(open: Option<string>, s: string, depth: nat, line: nat)
    requires s != []
    ensures var l := FirstLine(s);
            var q := LineOf(open, FormatLine(l, depth), line);
            LexOpen(open, FormatFrom(s, depth), line) ==
            LexOpen(q.open, FormatFrom(AfterLine(s), DepthAfter(Trim(l), depth)), q.line).Prepend(q.tokens)
  {
    var l := FirstLine(s);
    FormattedHasNoNewline(l, depth);
    LineJoins(open, FormatLine(l, depth), FormatFrom(AfterLine(s), DepthAfter(Trim(l), depth)), line);
  }

  lemma WholeLine(s: string)
    requires s != [] && |FirstLine(s)| == |s|
    ensures FirstLine(s) == s && AfterLine(s) == "" && AddedLines(s) == 1
  {
    assert s == FirstLine(s) && s[|s| - 1] in FirstLine(s);
  }

  /** Formatting any source that lexes gives as many tokens, on the same lines, up to the line of
      `<eof>`; their texts are the same exactly when every line that begins inside a token is
      left as it was. */
  lemma FormatKeepsPlaces(s: string)
    requires LexFrom(s, 1).Lexed?
    ensures var a, b := LexFrom(s, 1), LexFrom(FormatFrom(s, 0), 1);
            b.Lexed? && SamePlaces(a.tokens, b.tokens) && b.endLine == a.endLine + AddedLines(s) &&
            (Texts(a.tokens) == Texts(b.tokens) <==> Untouched(s, 0, false))
  {
    FormatComparable(None, None, s, 0, 1);
  }

  // ---- Sources without strings that span lines ----

  ghost predicate OneLineTokens(s: string, line: nat) {
    LexFrom(s, line).Lexed? && forall t <- LexFrom(s, line).tokens :: '\n' !in t.text
  }

  /** If no token has a newline in it, no line begins inside a token. */
  lemma {:induction false} OneLineUntouched(s: string, depth: nat, line: nat)
    requires OneLineTokens(s, line)
    ensures Untouched(s, depth, false)
    decreases |s|
  {
    if s != [] {
      var p, rest := LineOf(None, FirstLine(s), line), AfterLine(s);
      FirstLineScans(None, s, line);
      LineOfOpens(None, FirstLine(s), line);
      if p.open.Some? {
        var t := OpenLineHasNewline(s, line);
        assert false;
      } else {
        var tail := LexFrom(rest, p.line);
        assert forall t <- tail.tokens :: t in LexFrom(s, line).tokens;
        OneLineUntouched(rest, DepthAfter(Trim(FirstLine(s)), depth), p.line);
      }
    }
  }

  lemma OpenLineHasNewline(s: string, line: nat) returns (t: Token)
    requires s != [] && LexFrom(s, line).Lexed? && LineOf(None, FirstLine(s), line).open.Some?
    ensures t in LexFrom(s, line).tokens && '\n' in t.text
  {
    var p := LineOf(None, FirstLine(s), line);
    FirstLineScans(None, s, line);
    LineFromEnds(FirstLine(s), line);
    OpenHasNewline(p.open.value, AfterLine(s), p.line);
    t := LexOpen(p.open, AfterLine(s), p.line).tokens[0];
    assert (p.tokens + LexOpen(p.open, AfterLine(s), p.line).tokens)[|p.tokens|] == t;
  }

  lemma {:induction false} LineFromEnds(l: string, line: nat)
    ensures var open := LineFrom(l, line).open; open.Some? ==> EndsLine(open.value)
    decreases |l|
  {
    if l != [] && !StepAt(l).Bad? {
      LineFromEnds(l[StepAt(l).n..], line);
    }
  }

  lemma OpenHasNewline(text: string, rest: string, line: nat)
    requires EndsLine(text) && LexOpen(Some(text), rest, line).Lexed?
    ensures |LexOpen(Some(text), rest, line).tokens| > 0
    ensures '\n' in LexOpen(Some(text), rest, line).tokens[0].text
  {
    var n := Closing(rest).value;
    assert (text + rest[..n])[|text| - 1] == '\n';
  }

  /** Without strings that span lines the scanner cannot see the formatter: every token and its
      line stay; only the line of `<eof>` can grow, by the newline the formatter adds. */
  lemma FormatInvisible(s: string)
    requires OneLineTokens(s, 1)
    ensures LexFrom(FormatFrom(s, 0), 1) ==
            Lexed(LexFrom(s, 1).tokens, LexFrom(s, 1).endLine + AddedLines(s))
  {
    FormatKeepsPlaces(s);
    OneLineUntouched(s, 0, 1);
    SameTokens(LexFrom(s, 1).tokens, LexFrom(FormatFrom(s, 0), 1).tokens);
  }

  lemma SameTokens(a: seq<Token>, b: seq<Token>)
    requires SamePlaces(a, b) && Texts(a) == Texts(b)
    ensures a == b
  {
    forall i | 0 <= i < |a| ensures a[i] == b[i] {
      assert Texts(a)[i] == Texts(b)[i];
    }
  }

  // ---- A string that spans lines ----

  lemma UntouchedLine(l: string, rest: string, depth: nat, inside: bool)
    requires '\n' !in l
    ensures Untouched(l + "\n" + rest, depth, inside) <==>
            (inside ==> FormatLine(l, depth) == l) &&
            Untouched(rest, DepthAfter(Trim(l), depth), EndsInside(l, inside))
  {
    FirstLineOf(l, rest);
  }

  lemma UntouchedLast(l: string, depth: nat)
    requires '\n' !in l && l != []
    ensures Untouched(l, depth, true) <==> FormatLine(l, depth) == l
  {
    SpanUnique(l, NotNewline, |l|);
    assert FirstLine(l) == l && AfterLine(l) == "";
  }

  /** `{`, then a literal over two lines, the second beginning with `pad`: the literal survives
      exactly when `pad` is what the formatter would write there, four spaces. */
  lemma LiteralInBraces(pad: string, b: string, q: string)
    requires (forall c <- pad :: c == ' ') && b == ['{'] && q == ['"']
    ensures var s := b + "\n" + (q + "\n" + (pad + q));
            LexFrom(s, 1).Lexed? && LexFrom(FormatFrom(s, 0), 1).Lexed? &&
            (Texts(LexFrom(s, 1).tokens) == Texts(LexFrom(FormatFrom(s, 0), 1).tokens) <==> |pad| == 4)
  {
    var m := q + "\n" + (pad + q);
    LiteralLexes(pad, b, q, m);
    LiteralUntouched(pad, b, q, m);
    FormatKeepsPlaces(b + "\n" + m);
  }

  lemma LiteralLexes(pad: string, b: string, q: string, m: string)
    requires (forall c <- pad :: c == ' ') && b == ['{'] && q == ['"'] && m == q + "\n" + (pad + q)
    ensures LexFrom(b + "\n" + m, 1).Lexed?
  {
    BraceLine(b, 1);
    QuoteLines(pad, q);
    LineJoins(None, b, m, 1);
    LineJoins(None, q, pad + q, 2);
  }

  lemma LiteralUntouched(pad: string, b: string, q: string, m: string)
    requires (forall c <- pad :: c == ' ') && b == ['{'] && q == ['"'] && m == q + "\n" + (pad + q)
    ensures Untouched(b + "\n" + m, 0, false) <==> |pad| == 4
  {
    BraceLine(b, 1);
    QuoteLines(pad, q);
    UntouchedLine(b, m, 0, false);
    UntouchedLine(q, pad + q, 1, false);
    UntouchedLast(pad + q, 1);
  }

  lemma BraceLine(b: string, line: nat)
    requires b == ['{']
    ensures LineOf(None, b, line).open.None? && LineOf(None, b, line).line == line + 1
    ensures !EndsInside(b, false) && DepthAfter(Trim(b), 0) == 1
  {
    SpanUnique(b, IsBlankChar, 0);
    assert StepAt(b) == Emit(1, 0) && b[1..] == [];
    assert LineFrom([], line) == Part([], None, line + 1) && !OpensString([]);
    assert Trim(b) == b;
  }

  lemma QuoteLines(pad: string, q: string)
    requires (forall c <- pad :: c == ' ') && q == ['"']
    ensures '\n' !in pad + q && EndsInside(q, false) && DepthAfter(Trim(q), 1) == 1
    ensures LineOf(None, q, 2).open == Some(q + "\n")
    ensures LexOpen(Some(q + "\n"), pad + q, LineOf(None, q, 2).line).Lexed?
    ensures FormatLine(pad + q, 1) == pad + q <==> |pad| == 4
  {
    SpanUnique(q, IsBlankChar, 0);
    PadBody(pad, q);
    assert (pad + q)[|pad| + 1..] == [];
    assert forall i :: 0 <= i < |pad| ==> (pad + q)[i] == pad[i] && pad[i] in pad;
    SpanUnique(pad + q, IsBlankChar, |pad|);
    assert Trim(pad + q) == q;
    if |pad| == 4 {
      assert Indentation(1) == pad;
    } else {
      assert |FormatLine(pad + q, 1)| == 5;
    }
  }
}
