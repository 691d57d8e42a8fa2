/** The scanner line by line, strings that span lines included: how the scan of a physical line
    hands over to the next. */
module LineScan {
  import opened Text
  import opened Lexer
  import opened LexerLaws

  /** The scan of `s`, inside a string literal that begins with `open` if there is one. */
  function LexOpen(open: Option<string>, s: string, line: nat): Scan {
    match open
    case None => LexFrom(s, line)
    case Some(text) => LexClosing(text, s, Closing(s), line + BodyLines(s))
  }

  /** The literal `text` is closed after `closing` characters of `s`, on line `line`. */
  function LexClosing(text: string, s: string, closing: Option<nat>, line: nat): Scan
    requires closing.Some? ==> closing.value <= |s|
  {
    match closing
    case None => Unterminated(line)
    case Some(n) => LexFrom(s[n..], line).Prepend([Token(text + s[..n], line)])
  }

  /** A line's contribution: the tokens that end on it, the literal still open behind it, and
      the number of the next line. */
  datatype Part = Part(tokens: seq<Token>, open: Option<string>, line: nat) {
    function Prepend(ts: seq<Token>): Part {
      Part(ts + tokens, open, line)
    }
  }

  /** A backslash at the end of an unclosed literal hides the newline from the line count. */
  predicate HidesNewline(body: string) {
    if body == [] || body[0] == '"' then false
    else if body[0] == '\\' then |body| == 1 || HidesNewline(body[2..])
    else HidesNewline(body[1..])
  }

  function NextLine(body: string, line: nat): nat {
    if HidesNewline(body) then line else line + 1
  }

  function LineFrom(l: string, line: nat): Part
    decreases |l|
  {
    if l == [] then Part([], None, line + 1)
    else
      match StepAt(l)
      case Bad(_) => Part([], Some(l + "\n"), NextLine(l[1..], line))
      case Skip(n, _) => LineFrom(l[n..], line)
      case Emit(n, _) => LineFrom(l[n..], line).Prepend([Token(l[..n], line)])
  }

  function LineOf(open: Option<string>, l: string, line: nat): Part {
    match open
    case None => LineFrom(l, line)
    case Some(text) =>
      match Closing(l)
      case None => Part([], Some(text + l + "\n"), NextLine(l, line))
      case Some(n) => LineFrom(l[n..], line).Prepend([Token(text + l[..n], line)])
  }

  // ---- Whether a line ends inside a literal ----

  predicate OpensString(l: string) {
    l != [] && (StepAt(l).Bad? || OpensString(l[StepAt(l).n..]))
  }

  /** `l`, which begins inside a literal or not, ends inside one. */
  predicate EndsInside(l: string, inside: bool) {
    if inside then Closing(l).None? || OpensString(l[Closing(l).value..]) else OpensString(l)
  }

  lemma {:induction false} LineFromOpens(l: string, line: nat)
    ensures LineFrom(l, line).open.Some? <==> OpensString(l)
    decreases |l|
  {
    if l != [] && !StepAt(l).Bad? {
      LineFromOpens(l[StepAt(l).n..], line);
    }
  }

  lemma LineOfOpens(open: Option<string>, l: string, line: nat)
    ensures LineOf(open, l, line).open.Some? <==> EndsInside(l, open.Some?)
  {
    if open.None? {
      LineFromOpens(l, line);
    } else if Closing(l).Some? {
      LineFromOpens(l[Closing(l).value..], line);
    }
  }

  // ---- The hand-over ----

  lemma CutWithin(l: string, rest: string, n: nat)
    requires n <= |l|
    ensures (l + "\n" + rest)[n..] == l[n..] + "\n" + rest && (l + "\n" + rest)[..n] == l[..n]
  {
  }

  lemma CutBeyond(l: string, rest: string, k: nat)
    requires k <= |rest|
    ensures (l + "\n" + rest)[|l| + 1 + k..] == rest[k..]
    ensures (l + "\n" + rest)[..|l| + 1 + k] == l + "\n" + rest[..k]
  {
  }

  lemma {:induction false} UnclosedBody(l: string, rest: string)
    requires '\n' !in l && Closing(l).None?
    ensures Closing(l + "\n" + rest) == Later(Closing(rest), |l| + 1)
    ensures BodyLines(l + "\n" + rest) == BodyLines(rest) + (if HidesNewline(l) then 0 else 1)
    decreases |l|
  {
    var s := l + "\n" + rest;
    if l == [] {
      BodyStep(s, 1);
      assert s[1..] == rest;
    } else {
      var k := if l[0] == '\\' then 2 else 1;
      assert s[0] == l[0] && l[0] in l;
      BodyStep(s, k);
      if |l| < k {
        assert s[k..] == rest;
      } else {
        CutWithin(l, rest, k);
        UnclosedBody(l[k..], rest);
      }
    }
  }

  lemma ClosedBody(l: string, rest: string)
    requires '\n' !in l && Closing(l).Some?
    ensures Closing(l + "\n" + rest) == Closing(l) && BodyLines(l + "\n" + rest) == 0 && BodyLines(l) == 0
  {
    NoBodyLines(l);
    CutWithin(l, rest, Closing(l).value);
    ClosingLocal(l, l + "\n" + rest);
  }

  /** A line that begins outside a literal. */
  lemma {:induction false} LineFromJoins(l: string, rest: string, line: nat)
    requires '\n' !in l
    ensures var p := LineFrom(l, line);
            LexFrom(l + "\n" + rest, line) == LexOpen(p.open, rest, p.line).Prepend(p.tokens)
    decreases |l|
  {
    if l == [] {
      SkipSpace('\n', rest, line);
      assert l + "\n" + rest == ['\n'] + rest;
      NothingPrepended(LexFrom(rest, line + 1));
    } else if StepAt(l).Bad? {
      OpenedJoins(l, rest, line);
    } else {
      LineFromJoins(l[StepAt(l).n..], rest, line);
      StepJoins(l, rest, line);
    }
  }

  lemma StepJoins(l: string, rest: string, line: nat)
    requires '\n' !in l && l != [] && !StepAt(l).Bad?
    requires var p := LineFrom(l[StepAt(l).n..], line);
             LexFrom(l[StepAt(l).n..] + "\n" + rest, line) == LexOpen(p.open, rest, p.line).Prepend(p.tokens)
    ensures var p := LineFrom(l, line);
            LexFrom(l + "\n" + rest, line) == LexOpen(p.open, rest, p.line).Prepend(p.tokens)
  {
    var n, p := StepAt(l).n, LineFrom(l[StepAt(l).n..], line);
    LexOnce(l + "\n" + rest, line);
    NoBodyLines(l[1..]);
    StepBeforeNewline(l, rest);
    CutWithin(l, rest, n);
    PrependAssoc(LexOpen(p.open, rest, p.line), p.tokens, [Token(l[..n], line)]);
  }

  lemma NothingPrepended(scan: Scan)
    ensures scan.Prepend([]) == scan
  {
  }

  /** The literal that opens with `l`, goes on behind the newline. */
  lemma OpenedJoins(l: string, rest: string, line: nat)
    requires '\n' !in l && l != [] && StepAt(l).Bad?
    ensures LexFrom(l + "\n" + rest, line) == LexOpen(Some(l + "\n"), rest, NextLine(l[1..], line)).Prepend([])
  {
    CutWithin(l, rest, 1);
    UnclosedBody(l[1..], rest);
    NothingPrepended(LexOpen(Some(l + "\n"), rest, NextLine(l[1..], line)));
    OpensWith(l + "\n" + rest, l, rest, line, Closing(rest), BodyLines((l + "\n" + rest)[1..]));
  }

  lemma OpensWith(s: string, l: string, rest: string, line: nat, closing: Option<nat>, lines: nat)
    requires s == l + "\n" + rest && l != [] && s[0] == '"' && (closing.Some? ==> closing.value <= |rest|)
    requires Closing(s[1..]) == Later(closing, |l|) && BodyLines(s[1..]) == lines
    ensures LexFrom(s, line) == LexClosing(l + "\n", rest, closing, line + lines)
  {
    QuoteStep(s, Later(closing, |l|), lines);
    LexOnce(s, line);
    if closing.Some? {
      CutBeyond(l, rest, closing.value);
    }
  }

  lemma QuoteStep(s: string, closing: Option<nat>, lines: nat)
    requires s != [] && s[0] == '"' && Closing(s[1..]) == closing && BodyLines(s[1..]) == lines
    ensures StepAt(s) == match closing case None => Bad(lines) case Some(n) => Emit(1 + n, lines)
  {
  }

  lemma ClosedJoins(text: string, l: string, rest: string, line: nat)
    requires '\n' !in l && Closing(l).Some?
    ensures var p := LineOf(Some(text), l, line);
            LexOpen(Some(text), l + "\n" + rest, line) == LexOpen(p.open, rest, p.line).Prepend(p.tokens)
  {
    var n := Closing(l).value;
    var p := LineFrom(l[n..], line);
    ClosedBody(l, rest);
    LineFromJoins(l[n..], rest, line);
    CutWithin(l, rest, n);
    PrependAssoc(LexOpen(p.open, rest, p.line), p.tokens, [Token(text + l[..n], line)]);
  }

  lemma UnclosedJoins(text: string, l: string, rest: string, line: nat)
    requires '\n' !in l && Closing(l).None?
    ensures LexOpen(Some(text), l + "\n" + rest, line) ==
            LexOpen(Some(text + l + "\n"), rest, NextLine(l, line)).Prepend([])
  {
    UnclosedBody(l, rest);
    NothingPrepended(LexOpen(Some(text + l + "\n"), rest, NextLine(l, line)));
    Continues(text, l, l + "\n" + rest, rest, line, if HidesNewline(l) then 0 else 1);
  }

  lemma Continues(text: string, l: string, s: string, rest: string, line: nat, lines: nat)
    requires s == l + "\n" + rest && Closing(s) == Later(Closing(rest), |l| + 1)
    requires BodyLines(s) == BodyLines(rest) + lines
    ensures LexOpen(Some(text), s, line) == LexOpen(Some(text + l + "\n"), rest, line + lines)
  {
    LexContinues(text, l, rest, Closing(rest), line + lines + BodyLines(rest));
  }

  lemma LexContinues(text: string, l: string, rest: string, closing: Option<nat>, line: nat)
    requires closing.Some? ==> closing.value <= |rest|
    ensures LexClosing(text, l + "\n" + rest, Later(closing, |l| + 1), line) ==
            LexClosing(text + l + "\n", rest, closing, line)
  {
    if closing.Some? {
      CutBeyond(l, rest, closing.value);
      Regrouped(text, l, rest[..closing.value]);
    }
  }

  lemma Regrouped(text: string, l: string, tail: string)
    ensures text + (l + "\n" + tail) == text + l + "\n" + tail
  {
  }

  /** Any line: the scan of a line and the rest is the line's part, and the scan of the rest in
      the state the line leaves behind. */
  lemma LineJoins(open: Option<string>, l: string, rest: string, line: nat)
    requires '\n' !in l
    ensures var p := LineOf(open, l, line);
            LexOpen(open, l + "\n" + rest, line) == LexOpen(p.open, rest, p.line).Prepend(p.tokens)
  {
    if open.None? {
      LineFromJoins(l, rest, line);
    } else if Closing(l).Some? {
      ClosedJoins(open.value, l, rest, line);
    } else {
      UnclosedJoins(open.value, l, rest, line);
    }
  }

  // ---- The last line ----

  lemma {:induction false} LastLineFrom(l: string, line: nat)
    requires '\n' !in l && LexFrom(l, line).Lexed?
    ensures var p := LineFrom(l, line); p.open.None? && p.line == line + 1 && LexFrom(l, line) == Lexed(p.tokens, line)
    decreases |l|
  {
    if l != [] {
      LexOnce(l, line);
      NoBodyLines(l[1..]);
      LastLineFrom(l[StepAt(l).n..], line);
    }
  }

  lemma LastLine(open: Option<string>, l: string, line: nat)
    requires '\n' !in l && LexOpen(open, l, line).Lexed?
    ensures var p := LineOf(open, l, line);
            p.open.None? && p.line == line + 1 && LexOpen(open, l, line) == Lexed(p.tokens, line)
  {
    NoBodyLines(l);
    LastLineFrom(if open.None? then l else l[Closing(l).value..], line);
  }
}
