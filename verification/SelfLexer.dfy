/** The self-hosted scanner, `lex` of test-files/lex.dmc, and its agreement with the
    compiler's own scanner. */
module SelfLexer {
  import opened Text
  import opened Lexer
  import opened LexerLaws
  import opened Capped

  datatype Tok = Tok(kind: nat, text: string, line: nat)

  const END_OF_FILE: nat := 0
  const IDENTIFIER: nat := 1
  const NUMBER: nat := 2
  const STRING: nat := 3
  const PUNCTUATION: nat := 4

  predicate NotNul(c: char) {
    c != '\0'
  }

  /** The pairs of lines 185-187: all of the compiler's except `#[`. */
  predicate IsDmcPair(a: char, b: char) {
    (b == '=' && (a == '=' || a == '!' || a == '<' || a == '>')) ||
    (a == '&' && b == '&') || (a == '|' && b == '|') ||
    (a == ':' && b == ':') || (a == '-' && b == '>')
  }

  /** Where the loop of lines 170-175 stops: at the closing quote, or at the end. */
  function BodyEnd(s: string): (n: nat)
    ensures n <= |s|
  {
    if s == [] || s[0] == '"' then 0
    else
      var k := if s[0] == '\\' && 1 < |s| then 2 else 1;
      k + BodyEnd(s[k..])
  }

  /** One turn: pass over `n` characters, and push `toks` (whose lines are relative). */
  datatype DmcStep = DmcStep(n: nat, lines: nat, kind: Option<nat>, text: string)

  function DmcStepAt(s: string): (r: DmcStep)
    requires s != []
    ensures 1 <= r.n <= |s|
  {
    if s[0] == '\n' then DmcStep(1, 1, None, "")
    else if s[0] == ' ' || s[0] == '\t' || s[0] == '\r' then DmcStep(1, 0, None, "")
    else if StartsComment(s) then DmcStep(Span(s, NotNewline), 0, None, "")
    else if IsWordStart(s[0]) then Push(IDENTIFIER, s, Span(s, IsWord))
    else if IsDigit(s[0]) then Push(NUMBER, s, NumberLength(s))
    else if s[0] == '"' then
      var body := BodyEnd(s[1..]);
      DmcStep(if 1 + body < |s| then body + 2 else body + 1, 0, Some(STRING), s[1..1 + body])
    else if 2 <= |s| && IsDmcPair(s[0], s[1]) then Push(PUNCTUATION, s, 2)
    else Push(PUNCTUATION, s, 1)
  }

  function Push(kind: nat, s: string, n: nat): DmcStep
    requires n <= |s|
  {
    DmcStep(n, 0, Some(kind), s[..n])
  }

  function StepToks(step: DmcStep, line: nat): seq<Tok> {
    if step.kind.None? then [] else [Tok(step.kind.value, step.text, line)]
  }

  /** The unbounded scan: every token `lex` tries to push, the end marker last. */
  function DmcLexFrom(s: string, line: nat): seq<Tok>
    decreases |s|, 2
  {
    if s == [] then [Tok(END_OF_FILE, "", line)] else DmcLexTurn(s, line)
  }

  function DmcLexTurn(s: string, line: nat): seq<Tok>
    requires s != []
    decreases |s|, 1
  {
    DmcLexStep(DmcStepAt(s), s, line)
  }

  function DmcLexStep(step: DmcStep, s: string, line: nat): seq<Tok>
    requires 1 <= step.n <= |s|
    decreases |s|, 0
  {
    StepToks(step, line) + DmcLexFrom(s[step.n..], line + step.lines)
  }

  lemma DmcLexOnce(s: string, line: nat)
    requires s != []
    ensures DmcLexFrom(s, line) ==
            StepToks(DmcStepAt(s), line) + DmcLexFrom(s[DmcStepAt(s).n..], line + DmcStepAt(s).lines)
  {
    assert DmcLexFrom(s, line) == DmcLexTurn(s, line);
    assert DmcLexTurn(s, line) == DmcLexStep(DmcStepAt(s), s, line);
  }

  method CappedPush(out: array<Tok>, count: nat, cap: nat, tok: Tok) returns (newCount: nat)
    requires count <= cap <= out.Length
    modifies out
    ensures newCount == if count >= cap then count else count + 1
    ensures out[..] == if count >= cap then old(out[..]) else old(out[..])[count := tok]
  {
    if count >= cap {
      return count;
    }
    out[count] := tok;
    return count + 1;
  }

  method ScanBody(input: string, from: nat) returns (i: nat)
    requires from <= |input|
    ensures i == from + BodyEnd(input[from..])
  {
    i := from;
    while i < |input| && input[i] != '"'
      invariant from <= i <= |input|
      invariant i + BodyEnd(input[i..]) == from + BodyEnd(input[from..])
    {
      assert input[i..][1..] == input[i + 1..];
      if input[i] == '\\' && i + 1 < |input| {
        assert input[i..][2..] == input[i + 2..];
        i := i + 1;
      }
      i := i + 1;
    }
  }

  /** One turn of the loop of lines 120-196; its inner loops are the compiler's. */
  method ScanTurn(input: string, i: nat) returns (step: DmcStep)
    requires i < |input|
    ensures step == DmcStepAt(input[i..])
  {
    var c := input[i];
    ghost var s := input[i..];
    assert s[1..] == input[i + 1..];
    if c == '\n' {
      step := DmcStep(1, 1, None, "");
    } else if c == ' ' || c == '\t' || c == '\r' {
      step := DmcStep(1, 0, None, "");
    } else if c == '/' && i + 1 < |input| && input[i + 1] == '/' {
      var j := ScanComment(input, i);
      step := DmcStep(j - i, 0, None, "");
    } else if IsWordStart(c) {
      var j := ScanWord(input, i);
      step := Push(IDENTIFIER, input[i..], j - i);
    } else if IsDigit(c) {
      var j := ScanNumber(input, i);
      step := Push(NUMBER, input[i..], j - i);
    } else if c == '"' {
      var j := ScanBody(input, i + 1);
      assert s[1..j - i] == input[i + 1..j];
      step := DmcStep((if j < |input| then j + 1 else j) - i, 0, Some(STRING), input[i + 1..j]);
    } else if i + 1 < |input| && IsDmcPair(c, input[i + 1]) {
      step := Push(PUNCTUATION, input[i..], 2);
    } else {
      step := Push(PUNCTUATION, input[i..], 1);
    }
  }

  /** A C string ends at its first NUL. */
  function CString(s: string): string {
    s[..Span(s, NotNul)]
  }

  /** `lex` with any capacity returns a prefix of the unbounded scan. */
  method DmcLex(memory: string, out: array<Tok>, cap: nat) returns (count: nat)
    requires cap <= out.Length
    modifies out
    ensures Holds(out[..], old(out[..]), DmcLexFrom(CString(memory), 1), cap, count)
  {
    var input := CString(memory);
    var i: nat, line: nat := 0, 1;
    count := 0;
    ghost var all, initial := DmcLexFrom(input, 1), out[..];
    ghost var pushed: seq<Tok> := [];
    assert input[0..] == input;
    while i < |input|
      invariant i <= |input|
      invariant Holds(out[..], initial, pushed, cap, count)
      invariant all == pushed + DmcLexFrom(input[i..], line)
    {
      i, line, count, pushed := PushTurn(input, i, line, out, initial, pushed, cap, count);
    }
    count := PushToken(out, initial, pushed, cap, count, Tok(END_OF_FILE, "", line));
  }

  method PushToken(out: array<Tok>, ghost initial: seq<Tok>, ghost pushed: seq<Tok>, cap: nat, count: nat, tok: Tok)
    returns (newCount: nat)
    requires Holds(out[..], initial, pushed, cap, count)
    modifies out
    ensures Holds(out[..], initial, pushed + [tok], cap, newCount)
  {
    HoldsPush(out[..], initial, pushed, cap, count, tok);
    newCount := CappedPush(out, count, cap, tok);
  }

  method PushTurn(input: string, i: nat, line: nat, out: array<Tok>, ghost initial: seq<Tok>,
                  ghost pushed: seq<Tok>, cap: nat, count: nat)
    returns (j: nat, newLine: nat, newCount: nat, ghost more: seq<Tok>)
    requires i < |input| && Holds(out[..], initial, pushed, cap, count)
    modifies out
    ensures i < j <= |input| && Holds(out[..], initial, more, cap, newCount)
    ensures pushed + DmcLexFrom(input[i..], line) == more + DmcLexFrom(input[j..], newLine)
  {
    var step := ScanTurn(input, i);
    DmcAdvance(input, i, line, pushed);
    j, newLine, newCount, more := i + step.n, line + step.lines, count, pushed + StepToks(step, line);
    if step.kind.Some? {
      newCount := PushToken(out, initial, pushed, cap, count, Tok(step.kind.value, step.text, line));
    } else {
      assert more == pushed;
    }
  }

  lemma DmcAdvance(input: string, i: nat, line: nat, pushed: seq<Tok>)
    requires i < |input|
    ensures var step := DmcStepAt(input[i..]);
            pushed + DmcLexFrom(input[i..], line) ==
            pushed + StepToks(step, line) + DmcLexFrom(input[i + step.n..], line + step.lines)
  {
    DmcLexOnce(input[i..], line);
    var n := DmcStepAt(input[i..]).n;
    assert input[i..][n..] == input[i + n..];
  }

  // ---- Agreement with the compiler's scanner ----

  /** The self-hosted scanner knows neither vertical tab nor form feed as white space, and its
      input, a C string, ends at the first NUL. */
  predicate PlainText(s: string) {
    forall c <- s :: c != '\U{000B}' && c != '\U{000C}' && c != '\0'
  }

  function KindOf(text: string): nat {
    if text == [] then PUNCTUATION
    else if IsWordStart(text[0]) then IDENTIFIER
    else if IsDigit(text[0]) then NUMBER
    else if text[0] == '"' then STRING
    else PUNCTUATION
  }

  function Unquote(text: string): string {
    if 2 <= |text| && text[0] == '"' then text[1..|text| - 1] else text
  }

  /** A token of the compiler in the self-hosted scanner's terms; `#[` is two tokens there. */
  function Translate(t: Token): seq<Tok> {
    if t.text == "#[" then [Tok(PUNCTUATION, "#", t.line), Tok(PUNCTUATION, "[", t.line)]
    else [Tok(KindOf(t.text), Unquote(t.text), t.line)]
  }

  function TranslateAll(ts: seq<Token>): seq<Tok> {
    if ts == [] then [] else Translate(ts[0]) + TranslateAll(ts[1..])
  }

  lemma {:induction false} BodyEndIsClosing(s: string)
    requires Closing(s).Some?
    ensures BodyEnd(s) + 1 == Closing(s).value
  {
    if s[0] != '"' {
      BodyEndIsClosing(s[if s[0] == '\\' && 1 < |s| then 2 else 1..]);
    }
  }

  /** Outside `#[`, one turn of the two scanners does the same thing. */
  lemma SameStep(s: string, line: nat)
    requires s != [] && PlainText(s) && !StepAt(s).Bad?
    requires StepAt(s).Emit? ==> '\n' !in s[..StepAt(s).n] && s[..StepAt(s).n] != "#["
    ensures DmcStepAt(s).n == StepAt(s).n && DmcStepAt(s).lines == StepAt(s).lines
    ensures StepToks(DmcStepAt(s), line) ==
            if StepAt(s).Emit? then Translate(Token(s[..StepAt(s).n], line)) else []
  {
    assert s[0] in s;
    if s[0] == '"' {
      BodyEndIsClosing(s[1..]);
      var n := StepAt(s).n;
      StepLocal(s, s[..n]);
      NoBodyLines(s[..n][1..]);
      assert s[..n][1..n - 1] == s[1..n - 1];
    } else if StepAt(s).Emit? {
      var text := s[..StepAt(s).n];
      assert text[0] == s[0];
    }
  }

  lemma SingleStep(s: string)
    requires s != [] && (s[0] == '#' || s[0] == '[')
    ensures DmcStepAt(s) == Push(PUNCTUATION, s, 1)
  {
  }

  /** At `#[` the self-hosted scanner takes two turns. */
  lemma HashBracket(s: string, line: nat)
    requires 2 <= |s| && s[..2] == "#["
    ensures DmcLexFrom(s, line) == Translate(Token("#[", line)) + DmcLexFrom(s[2..], line)
  {
    assert s[0] == s[..2][0] == '#' && s[1] == s[..2][1] == '[';
    assert s[..1] == "#" && s[1..][..1] == "[" && s[1..][1..] == s[2..];
    SingleStep(s);
    SingleStep(s[1..]);
    DmcLexOnce(s, line);
    DmcLexOnce(s[1..], line);
    assert [Tok(PUNCTUATION, "#", line)] + ([Tok(PUNCTUATION, "[", line)] + DmcLexFrom(s[2..], line))
        == Translate(Token("#[", line)) + DmcLexFrom(s[2..], line);
  }

  /** One turn of the agreement, given the rest of the scan. */
  lemma AgreeStep(s: string, line: nat, step: Step, tail: Scan)
    requires s != [] && PlainText(s) && StepAt(s) == step && !step.Bad?
    requires step.Emit? ==> '\n' !in s[..step.n]
    requires LexFrom(s[step.n..], line + step.lines) == tail && tail.Lexed?
    requires DmcLexFrom(s[step.n..], line + step.lines) == Agreed(tail)
    ensures DmcLexFrom(s, line) ==
            Agreed(if step.Emit? then tail.Prepend([Token(s[..step.n], line)]) else tail)
  {
    if step.Emit? {
      AgreeOnToken(s, line);
      TranslateMore(Token(s[..step.n], line), tail.tokens, [Tok(END_OF_FILE, "", tail.endLine)]);
    } else {
      SameStep(s, line);
      DmcLexOnce(s, line);
      assert [] + Agreed(tail) == Agreed(tail);
    }
  }

  lemma TranslateMore(t: Token, ts: seq<Token>, end: seq<Tok>)
    ensures TranslateAll([t] + ts) + end == Translate(t) + (TranslateAll(ts) + end)
  {
    assert ([t] + ts)[1..] == ts;
  }

  lemma AgreeOnToken(s: string, line: nat)
    requires s != [] && PlainText(s) && StepAt(s).Emit? && '\n' !in s[..StepAt(s).n]
    ensures StepAt(s).lines == 0
    ensures DmcLexFrom(s, line) ==
            Translate(Token(s[..StepAt(s).n], line)) + DmcLexFrom(s[StepAt(s).n..], line)
  {
    if s[..StepAt(s).n] == "#[" {
      HashBracket(s, line);
      assert s[0] == s[..StepAt(s).n][0];
    } else {
      SameStep(s, line);
      DmcLexOnce(s, line);
    }
  }

  /** What the self-hosted scanner should return for a completed scan of the compiler. */
  function Agreed(scan: Scan): seq<Tok>
    requires scan.Lexed?
  {
    TranslateAll(scan.tokens) + [Tok(END_OF_FILE, "", scan.endLine)]
  }

  /** On plain text whose strings are terminated and on one line, the two scanners agree. */
  lemma {:induction false} LexersAgree(s: string, line: nat)
    requires PlainText(s) && LexFrom(s, line).Lexed?
    requires forall t <- LexFrom(s, line).tokens :: '\n' !in t.text
    ensures DmcLexFrom(s, line) == Agreed(LexFrom(s, line))
    decreases |s|
  {
    if s != [] {
      LexOnce(s, line);
      var step := StepAt(s);
      var tail := LexFrom(s[step.n..], line + step.lines);
      if step.Emit? {
        assert LexFrom(s, line).tokens[0].text == s[..step.n];
        AgreeOnToken(s, line);
      }
      assert forall c <- s[step.n..] :: c in s;
      LexersAgree(s[step.n..], line + step.lines);
      AgreeStep(s, line, step, tail);
    }
  }
}
