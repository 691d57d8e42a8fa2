/** The compiler's scanner, `lex` of compiler/dmc.cpp.

    `Step` says what the scanner does at the head of the remaining source, `LexFrom`
    iterates it, and `Lex` is the loop over the index `i`, proved to compute `LexFrom`. */
module Lexer {
  import opened Text

  datatype Token = Token(text: string, line: nat)

  /** The tokens of a scan and the line reached at its end, or the error of line 73. */
  datatype Scan = Lexed(tokens: seq<Token>, endLine: nat) | Unterminated(line: nat) {
    function Prepend(ts: seq<Token>): Scan {
      if Lexed? then Lexed(ts + tokens, endLine) else this
    }
  }

  /** One turn of the scanner: pass over `n` characters, emit a token of `n` characters, or
      fail; `lines` newlines are counted on the way. */
  datatype Step = Skip(n: nat, lines: nat) | Emit(n: nat, lines: nat) | Bad(lines: nat)

  /** Where an optional exponent starting at `b` ends. */
  function ExponentEnd(s: string, b: nat): (n: nat)
    requires b <= |s|
    ensures b <= n <= |s|
  {
    if b < |s| && (s[b] == 'e' || s[b] == 'E') then
      var d := if b + 1 < |s| && (s[b + 1] == '+' || s[b + 1] == '-') then b + 2 else b + 1;
      d + Span(s[d..], IsDigit)
    else b
  }

  /** Where an optional fraction starting at `a` ends: the dot needs a digit after it. */
  function FractionEnd(s: string, a: nat): (n: nat)
    requires a <= |s|
    ensures a <= n <= |s|
  {
    if a + 1 < |s| && s[a] == '.' && IsDigit(s[a + 1]) then a + 1 + Span(s[a + 1..], IsDigit) else a
  }

  function NumberLength(s: string): (n: nat)
    requires s != [] && IsDigit(s[0])
    ensures 1 <= n <= |s|
  {
    ExponentEnd(s, FractionEnd(s, Span(s, IsDigit)))
  }

  /** Number of characters up to and including the closing quote, `s` starting after the
      opening one; a backslash hides the character after it. */
  function Closing(s: string): (r: Option<nat>)
    ensures r.Some? ==> 1 <= r.value <= |s|
  {
    if s == [] then None
    else if s[0] == '"' then Some(1)
    else
      var k := if s[0] == '\\' && 1 < |s| then 2 else 1;
      Later(Closing(s[k..]), k)
  }

  function Later(r: Option<nat>, k: nat): Option<nat> {
    if r.Some? then Some(r.value + k) else None
  }

  /** The newlines `lex` counts inside a string body: those no backslash hides. */
  function BodyLines(s: string): nat {
    if s == [] || s[0] == '"' then 0
    else if s[0] == '\\' && 1 < |s| then BodyLines(s[2..])
    else (if s[0] == '\n' then 1 else 0) + BodyLines(s[1..])
  }

  /** The nine two-character operators of line 80. */
  predicate IsPair(a: char, b: char) {
    (b == '=' && (a == '=' || a == '!' || a == '<' || a == '>')) ||
    (a == '&' && b == '&') || (a == '|' && b == '|') ||
    (a == '-' && b == '>') || (a == ':' && b == ':') || (a == '#' && b == '[')
  }

  predicate StartsComment(s: string) {
    2 <= |s| && s[0] == '/' && s[1] == '/'
  }

  function StepAt(s: string): (r: Step)
    requires s != []
    ensures !r.Bad? ==> 1 <= r.n <= |s|
  {
    if s[0] == '\n' then Skip(1, 1)
    else if IsSpace(s[0]) then Skip(1, 0)
    else if StartsComment(s) then Skip(Span(s, NotNewline), 0)
    else if IsWordStart(s[0]) then Emit(1 + Span(s[1..], IsWord), 0)
    else if IsDigit(s[0]) then Emit(NumberLength(s), 0)
    else if s[0] == '"' then
      match Closing(s[1..])
      case None => Bad(BodyLines(s[1..]))
      case Some(n) => Emit(1 + n, BodyLines(s[1..]))
    else if 2 <= |s| && IsPair(s[0], s[1]) then Emit(2, 0)
    else Emit(1, 0)
  }

  // The scan is spread over three functions so that a proof unfolds one turn at a time.
  function LexFrom(s: string, line: nat): Scan
    decreases |s|, 2
  {
    if s == [] then Lexed([], line) else LexTurn(s, line)
  }

  function LexTurn(s: string, line: nat): Scan
    requires s != []
    decreases |s|, 1
  {
    LexStep(StepAt(s), s, line)
  }

  function LexStep(step: Step, s: string, line: nat): Scan
    requires !step.Bad? ==> 1 <= step.n <= |s|
    decreases |s|, 0
  {
    match step
    case Bad(k) => Unterminated(line + k)
    case Skip(n, k) => LexFrom(s[n..], line + k)
    case Emit(n, k) => LexFrom(s[n..], line + k).Prepend([Token(s[..n], line + k)])
  }

  /** `LexFrom` unfolded once, without the scanner's case analysis. */
  lemma LexOnce(s: string, line: nat)
    requires s != []
    ensures LexFrom(s, line) ==
            match StepAt(s)
            case Bad(k) => Unterminated(line + k)
            case Skip(n, k) => LexFrom(s[n..], line + k)
            case Emit(n, k) => LexFrom(s[n..], line + k).Prepend([Token(s[..n], line + k)])
  {
    var step := StepAt(s);
    assert LexFrom(s, line) == LexTurn(s, line);
    assert LexTurn(s, line) == LexStep(step, s, line);
  }

  datatype LexResult = Tokens(tokens: seq<Token>) | Error(line: nat)

  function Finish(scan: Scan): LexResult {
    match scan
    case Lexed(ts, line) => Tokens(ts + [Token("<eof>", line)])
    case Unterminated(line) => Error(line)
  }

  method ScanDigits(source: string, from: nat) returns (i: nat)
    requires from <= |source|
    ensures i == from + Span(source[from..], IsDigit)
  {
    i := from;
    while i < |source| && IsDigit(source[i])
      invariant from <= i <= |source|
      invariant forall k :: from <= k < i ==> IsDigit(source[k])
    {
      i := i + 1;
    }
    SpanUnique(source[from..], IsDigit, i - from);
  }

  method ScanWord(source: string, from: nat) returns (i: nat)
    requires from <= |source|
    ensures i == from + Span(source[from..], IsWord)
  {
    i := from;
    while i < |source| && IsWord(source[i])
      invariant from <= i <= |source|
      invariant forall k :: from <= k < i ==> IsWord(source[k])
    {
      i := i + 1;
    }
    SpanUnique(source[from..], IsWord, i - from);
  }

  method ScanComment(source: string, from: nat) returns (i: nat)
    requires from <= |source|
    ensures i == from + Span(source[from..], NotNewline)
  {
    i := from;
    while i < |source| && source[i] != '\n'
      invariant from <= i <= |source|
      invariant forall k :: from <= k < i ==> NotNewline(source[k])
    {
      i := i + 1;
    }
    SpanUnique(source[from..], NotNewline, i - from);
  }

  /** The optional fraction and exponent that follow the leading digits. */
  method ScanNumber(source: string, start: nat) returns (i: nat)
    requires start < |source| && IsDigit(source[start])
    ensures i == start + NumberLength(source[start..])
  {
    i := ScanDigits(source, start);
    i := ScanFraction(source, start, i);
    i := ScanExponent(source, start, i);
  }

  method ScanFraction(source: string, ghost start: nat, from: nat) returns (i: nat)
    requires start <= from <= |source|
    ensures i == start + FractionEnd(source[start..], from - start)
  {
    i := from;
    if i < |source| && source[i] == '.' && i + 1 < |source| && IsDigit(source[i + 1]) {
      assert source[start..][i + 1 - start..] == source[i + 1..];
      i := ScanDigits(source, i + 1);
    }
  }

  method ScanExponent(source: string, ghost start: nat, from: nat) returns (i: nat)
    requires start <= from <= |source|
    ensures i == start + ExponentEnd(source[start..], from - start)
  {
    i := from;
    if i < |source| && (source[i] == 'e' || source[i] == 'E') {
      i := i + 1;
      if i < |source| && (source[i] == '+' || source[i] == '-') {
        i := i + 1;
      }
      assert source[start..][i - start..] == source[i..];
      i := ScanDigits(source, i);
    }
  }

  /** The string branch: from just after the opening quote to the closing quote or the end. */
  method ScanString(source: string, from: nat, line: nat) returns (i: nat, newLine: nat)
    requires from <= |source|
    ensures from <= i <= |source|
    ensures newLine == line + BodyLines(source[from..])
    ensures match Closing(source[from..])
            case Some(n) => i < |source| && i + 1 == from + n
            case None => i == |source|
  {
    i, newLine := from, line;
    while i < |source| && source[i] != '"'
      invariant from <= i <= |source|
      invariant newLine + BodyLines(source[i..]) == line + BodyLines(source[from..])
      invariant Closing(source[from..]) == Later(Closing(source[i..]), i - from)
    {
      BodyTurn(source, i, Closing(source[from..]), i - from);
      if source[i] == '\\' && i + 1 < |source| {
        i := i + 2;
      } else {
        if source[i] == '\n' {
          newLine := newLine + 1;
        }
        i := i + 1;
      }
    }
  }

  lemma BodyTurn(source: string, i: nat, closing: Option<nat>, n: nat)
    requires i < |source| && source[i] != '"' && closing == Later(Closing(source[i..]), n)
    ensures var k := if source[i] == '\\' && i + 1 < |source| then 2 else 1;
            closing == Later(Closing(source[i + k..]), n + k) &&
            BodyLines(source[i..]) ==
            BodyLines(source[i + k..]) + (if k == 1 && source[i] == '\n' then 1 else 0)
  {
    var k := if source[i] == '\\' && i + 1 < |source| then 2 else 1;
    BodyStep(source[i..], k);
    assert source[i..][k..] == source[i + k..];
  }

  lemma BodyStep(s: string, k: nat)
    requires s != [] && s[0] != '"' && k == if s[0] == '\\' && 1 < |s| then 2 else 1
    ensures Closing(s) == Later(Closing(s[k..]), k)
    ensures BodyLines(s) == BodyLines(s[k..]) + (if k == 1 && s[0] == '\n' then 1 else 0)
  {
  }

  /** One turn of the loop of lines 39-86: the new `i` and `line`, whether a token is pushed. */
  method ScanStep(source: string, i: nat, line: nat) returns (j: nat, newLine: nat, emit: bool, ok: bool)
    requires i < |source|
    ensures match StepAt(source[i..])
            case Skip(n, k) => ok && !emit && j == i + n && newLine == line + k
            case Emit(n, k) => ok && emit && j == i + n && newLine == line + k
            case Bad(k) => !ok && newLine == line + k
  {
    var c := source[i];
    ghost var s := source[i..];
    assert s[1..] == source[i + 1..];
    newLine, emit, ok := line, true, true;
    if c == '\n' {
      newLine, j, emit := line + 1, i + 1, false;
    } else if IsSpace(c) {
      j, emit := i + 1, false;
    } else if c == '/' && i + 1 < |source| && source[i + 1] == '/' {
      j := ScanComment(source, i);
      emit := false;
    } else if IsWordStart(c) {
      j := ScanWord(source, i + 1);
    } else if IsDigit(c) {
      j := ScanNumber(source, i);
    } else if c == '"' {
      j, newLine := ScanString(source, i + 1, line);
      ok := j < |source|;
      j := j + 1;
    } else if i + 1 < |source| && IsPair(c, source[i + 1]) {
      j := i + 2;
    } else {
      j := i + 1;
    }
  }

  method Lex(source: string) returns (r: LexResult)
    ensures r == Finish(LexFrom(source, 1))
  {
    var result: seq<Token> := [];
    var line: nat := 1;
    var i: nat := 0;
    assert source[0..] == source;
    while i < |source|
      invariant i <= |source|
      invariant LexFrom(source, 1) == LexFrom(source[i..], line).Prepend(result)
    {
      var j, newLine, emit, ok := ScanStep(source, i, line);
      if !ok {
        LexOnce(source[i..], line);
        return Error(newLine);
      }
      Advance(source, i, line, j, newLine, result);
      if emit {
        result := result + [Token(source[i..j], newLine)];
      }
      i, line := j, newLine;
    }
    return Tokens(result + [Token("<eof>", line)]);
  }

  /** What one turn does to the result accumulated so far. */
  lemma Advance(source: string, i: nat, line: nat, j: nat, newLine: nat, result: seq<Token>)
    requires i < j <= |source| && !StepAt(source[i..]).Bad?
    requires StepAt(source[i..]).n == j - i && newLine == line + StepAt(source[i..]).lines
    ensures LexFrom(source[i..], line).Prepend(result) ==
            LexFrom(source[j..], newLine).Prepend(
              if StepAt(source[i..]).Emit? then result + [Token(source[i..j], newLine)] else result)
  {
    LexOnce(source[i..], line);
    assert source[i..][j - i..] == source[j..];
    assert source[i..][..j - i] == source[i..j];
    PrependAssoc(LexFrom(source[j..], newLine), [Token(source[i..j], newLine)], result);
  }

  lemma PrependAssoc(scan: Scan, ts: seq<Token>, us: seq<Token>)
    ensures scan.Prepend(ts).Prepend(us) == scan.Prepend(us + ts)
  {
    if scan.Lexed? {
      assert us + (ts + scan.tokens) == (us + ts) + scan.tokens;
    }
  }
}
