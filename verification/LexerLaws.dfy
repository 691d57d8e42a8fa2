/** What a token depends on, and the laws of the scanner that follow: it loses nothing, it
    undoes printing with spaces. */
module LexerLaws {
  import opened Text
  import opened Lexer

  // ---- A token is decided by its own characters and the two after it ----

  /** `s` and `t` have the same first `m` characters, or are the same and shorter. */
  ghost predicate Window(s: string, t: string, m: nat) {
    && (|s| < m || |t| < m ==> |s| == |t|)
    && (forall i :: 0 <= i < m && i < |s| && i < |t| ==> s[i] == t[i])
  }

  lemma SpanWindow(s: string, t: string, from: nat, p: char -> bool, m: nat)
    requires Window(s, t, m) && from <= |s| && from + Span(s[from..], p) < m
    ensures from <= |t| && Span(t[from..], p) == Span(s[from..], p)
  {
    SpanLocal(s[from..], t[from..], p);
  }

  lemma FractionWindow(s: string, t: string, a: nat, m: nat)
    requires Window(s, t, m) && a <= |s| && FractionEnd(s, a) + 1 < m
    ensures a <= |t| && FractionEnd(t, a) == FractionEnd(s, a)
  {
    if a + 1 < |s| && s[a] == '.' && IsDigit(s[a + 1]) {
      SpanWindow(s, t, a + 1, IsDigit, m);
    }
  }

  lemma ExponentWindow(s: string, t: string, b: nat, m: nat)
    requires Window(s, t, m) && b <= |s| && ExponentEnd(s, b) < m
    ensures b <= |t| && ExponentEnd(t, b) == ExponentEnd(s, b)
  {
    if b < |s| && (s[b] == 'e' || s[b] == 'E') {
      var d := if b + 1 < |s| && (s[b + 1] == '+' || s[b + 1] == '-') then b + 2 else b + 1;
      SpanWindow(s, t, d, IsDigit, m);
    }
  }

  lemma NumberWindow(s: string, t: string, m: nat)
    requires s != [] && IsDigit(s[0]) && Window(s, t, m) && NumberLength(s) + 1 < m
    ensures t != [] && IsDigit(t[0]) && NumberLength(t) == NumberLength(s)
  {
    var a := Span(s, IsDigit);
    assert s[0..] == s && t[0..] == t;
    SpanWindow(s, t, 0, IsDigit, m);
    FractionWindow(s, t, a, m);
    ExponentWindow(s, t, FractionEnd(s, a), m);
  }

  /** The scanner looks no further than two characters past a token: `1.x` and `1.5` show that
      it looks that far. */
  lemma TwoAhead(s: string, t: string)
    requires s != [] && StepAt(s).Emit? && Window(s, t, StepAt(s).n + 2)
    ensures t != [] && StepAt(t) == StepAt(s)
  {
    var n := StepAt(s).n;
    assert t[0] == s[0];
    if IsWordStart(s[0]) {
      SpanWindow(s, t, 1, IsWord, n + 1);
    } else if IsDigit(s[0]) {
      NumberWindow(s, t, n + 2);
    } else if s[0] == '"' {
      var k := Closing(s[1..]).value;
      assert s[1..][..k] == t[1..][..k];
      ClosingLocal(s[1..], t[1..]);
    }
  }

  /** One character is not enough. */
  lemma OneAheadIsNotEnough(s: string, t: string)
    requires s == ['1', '.', 'x'] && t == ['1', '.', '5']
    ensures Window(s, t, 2) && StepAt(s) == Emit(1, 0) && StepAt(t) == Emit(3, 0)
  {
    SpanUnique(s, IsDigit, 1);
    SpanUnique(t, IsDigit, 1);
    SpanUnique(t[2..], IsDigit, 1);
  }

  // ---- Cutting the source behind a token, or going on with white space, keeps it ----

  /** `t` is a prefix of `s`, or continues `s` with white space. */
  ghost predicate Agree(s: string, t: string) {
    && (forall i :: 0 <= i < |s| && i < |t| ==> s[i] == t[i])
    && (|s| < |t| ==> IsSpace(t[|s|]))
  }

  lemma SpanAgree(s: string, t: string, from: nat, p: char -> bool)
    requires Agree(s, t) && from <= |s|
    requires from + Span(s[from..], p) <= |t|
    requires |s| < |t| ==> !p(t[|s|])
    ensures Span(t[from..], p) == Span(s[from..], p)
  {
    var k := Span(s[from..], p);
    SpanLocal(s[from..], t[from..], p);
  }

  lemma FractionAgree(s: string, t: string, a: nat)
    requires Agree(s, t) && a <= |s| && FractionEnd(s, a) <= |t|
    ensures FractionEnd(t, a) == FractionEnd(s, a)
  {
    if a + 1 < |s| && s[a] == '.' && IsDigit(s[a + 1]) {
      SpanAgree(s, t, a + 1, IsDigit);
    }
  }

  lemma ExponentAgree(s: string, t: string, b: nat)
    requires Agree(s, t) && b <= |s| && ExponentEnd(s, b) <= |t|
    ensures ExponentEnd(t, b) == ExponentEnd(s, b)
  {
    if b < |s| && (s[b] == 'e' || s[b] == 'E') {
      var d := if b + 1 < |s| && (s[b + 1] == '+' || s[b + 1] == '-') then b + 2 else b + 1;
      SpanAgree(s, t, d, IsDigit);
    }
  }

  lemma NumberAgree(s: string, t: string)
    requires Agree(s, t) && s != [] && t != [] && IsDigit(s[0])
    requires NumberLength(s) <= |t|
    ensures IsDigit(t[0]) && NumberLength(t) == NumberLength(s)
  {
    var a := Span(s, IsDigit);
    var b := FractionEnd(s, a);
    assert s[0..] == s && t[0..] == t;
    SpanAgree(s, t, 0, IsDigit);
    FractionAgree(s, t, a);
    ExponentAgree(s, t, b);
  }

  lemma {:induction false} ClosingLocal(s: string, t: string)
    requires Closing(s).Some? && Closing(s).value <= |t|
    requires s[..Closing(s).value] == t[..Closing(s).value]
    ensures Closing(t) == Closing(s) && BodyLines(t) == BodyLines(s)
    decreases |s|
  {
    assert s[0] == s[..Closing(s).value][0] && t[0] == t[..Closing(s).value][0];
    if s[0] != '"' {
      var k := if s[0] == '\\' && 1 < |s| then 2 else 1;
      var n := Closing(s[k..]).value;
      assert s[k..][..n] == s[..n + k][k..];
      assert t[k..][..n] == t[..n + k][k..];
      ClosingLocal(s[k..], t[k..]);
    }
  }

  /** A token stays what it is when the source is cut anywhere behind it, or is only longer, by
      white space and whatever follows that. */
  lemma StepLocal(s: string, t: string)
    requires s != [] && t != [] && Agree(s, t)
    requires StepAt(s).Emit? && StepAt(s).n <= |t|
    ensures StepAt(t) == StepAt(s)
  {
    assert t[0] == s[0];
    if IsWordStart(s[0]) {
      SpanAgree(s, t, 1, IsWord);
    } else if IsDigit(s[0]) {
      NumberAgree(s, t);
    } else if s[0] == '"' {
      var n := Closing(s[1..]).value;
      assert s[1..][..n] == t[1..][..n];
      ClosingLocal(s[1..], t[1..]);
    } else {
      PunctuationLocal(s, t);
    }
  }

  lemma PunctuationLocal(s: string, t: string)
    requires s != [] && t != [] && Agree(s, t)
    requires StepAt(s).Emit? && StepAt(s).n <= |t|
    requires !IsWordStart(s[0]) && !IsDigit(s[0]) && s[0] != '"'
    ensures StepAt(t) == StepAt(s)
  {
    assert t[0] == s[0];
  }

  // ---- Printing tokens with spaces and scanning again ----

  function Texts(ts: seq<Token>): (r: seq<string>)
    ensures |r| == |ts|
  {
    seq(|ts|, i requires 0 <= i < |ts| => ts[i].text)
  }

  function Spaced(words: seq<string>): string {
    if words == [] then ""
    else if |words| == 1 then words[0]
    else words[0] + " " + Spaced(words[1..])
  }

  /** The text is scanned as one token when it stands alone. */
  ghost predicate IsToken(w: string) {
    w != [] && StepAt(w).Emit? && StepAt(w).n == |w|
  }

  lemma {:induction false} EmittedAreTokens(s: string, line: nat)
    requires LexFrom(s, line).Lexed?
    ensures forall t <- LexFrom(s, line).tokens :: IsToken(t.text)
    decreases |s|
  {
    if s != [] {
      LexOnce(s, line);
      var step := StepAt(s);
      EmittedAreTokens(s[step.n..], line + step.lines);
      if step.Emit? {
        StepLocal(s, s[..step.n]);
      }
    }
  }

  /** A token followed by white space, or by nothing, is scanned off first. */
  lemma TokenFirst(w: string, rest: string, line: nat)
    requires IsToken(w) && (rest == [] || IsSpace(rest[0]))
    ensures LexFrom(w + rest, line) ==
            LexFrom(rest, line + StepAt(w).lines).Prepend([Token(w, line + StepAt(w).lines)])
  {
    StepLocal(w, w + rest);
    LexOnce(w + rest, line);
    assert (w + rest)[..|w|] == w && (w + rest)[|w|..] == rest;
  }

  lemma SkipSpace(c: char, rest: string, line: nat)
    requires IsSpace(c)
    ensures LexFrom([c] + rest, line) == LexFrom(rest, if c == '\n' then line + 1 else line)
  {
    LexOnce([c] + rest, line);
    assert ([c] + rest)[1..] == rest;
  }

  /** Behind a printed token the scan goes on with the rest of the words. */
  lemma SpacedFirst(words: seq<string>, line: nat) returns (next: nat)
    requires words != [] && IsToken(words[0])
    ensures LexFrom(Spaced(words), line) == LexFrom(Spaced(words[1..]), next).Prepend([Token(words[0], next)])
  {
    var w, more := words[0], Spaced(words[1..]);
    next := line + StepAt(w).lines;
    if |words| == 1 {
      TokenFirst(w, "", line);
      assert w + "" == w && more == "";
    } else {
      TokenFirst(w, [' '] + more, line);
      SkipSpace(' ', more, next);
      assert w + ([' '] + more) == w + " " + more;
    }
  }

  lemma {:induction false} RelexFrom(words: seq<string>, line: nat)
    requires forall w <- words :: IsToken(w)
    ensures LexFrom(Spaced(words), line).Lexed?
    ensures Texts(LexFrom(Spaced(words), line).tokens) == words
  {
    if words != [] {
      var next := SpacedFirst(words, line);
      RelexFrom(words[1..], next);
      TextsCons(words, LexFrom(Spaced(words[1..]), next).tokens, next);
    }
  }

  lemma TextsCons(words: seq<string>, ts: seq<Token>, line: nat)
    requires words != [] && Texts(ts) == words[1..]
    ensures Texts([Token(words[0], line)] + ts) == words
  {
    assert words == [words[0]] + words[1..];
  }

  /** Relex round trip: the scanner recovers exactly the tokens it printed. */
  lemma Relex(s: string)
    requires LexFrom(s, 1).Lexed?
    ensures var texts := Texts(LexFrom(s, 1).tokens);
            LexFrom(Spaced(texts), 1).Lexed? && Texts(LexFrom(Spaced(texts), 1).tokens) == texts
  {
    EmittedAreTokens(s, 1);
    RelexFrom(Texts(LexFrom(s, 1).tokens), 1);
  }

  // ---- Nothing is lost ----

  /** White space and `//` comments, each comment running to the end of its line. */
  predicate IsBlank(g: string)
    decreases |g|
  {
    g == [] || (if IsSpace(g[0]) then IsBlank(g[1..])
                else StartsComment(g) && IsBlank(g[Span(g, NotNewline)..]))
  }

  /** gap, token, gap, token, ..., gap. */
  function Weave(gaps: seq<string>, texts: seq<string>): string
    requires |gaps| == |texts| + 1
  {
    if texts == [] then gaps[0] else gaps[0] + texts[0] + Weave(gaps[1..], texts[1..])
  }

  /** What stands before token `i` of a weave. */
  function Before(gaps: seq<string>, texts: seq<string>, i: nat): string
    requires |gaps| == |texts| + 1 && i < |texts|
  {
    if i == 0 then gaps[0] else gaps[0] + texts[0] + Before(gaps[1..], texts[1..], i - 1)
  }

  /** The newlines counted inside a token: only strings hold any. */
  function TokenLines(w: string): nat {
    if w != [] && w[0] == '"' then BodyLines(w[1..]) else 0
  }

  /** Every token's line is the starting line, plus the newlines of the gaps before it, plus
      those counted inside the tokens up to and including it. */
  ghost predicate Numbered(gaps: seq<string>, ts: seq<Token>, line: nat)
    requires |gaps| == |ts| + 1
  {
    ts == [] ||
    (ts[0].line == line + CountNewlines(gaps[0]) + TokenLines(ts[0].text) &&
     Numbered(gaps[1..], ts[1..], ts[0].line))
  }

  lemma WeaveHead(g: string, gaps: seq<string>, texts: seq<string>)
    requires |gaps| == |texts| + 1
    ensures gaps[0] <= Weave(gaps, texts)
    ensures Weave([g + gaps[0]] + gaps[1..], texts) == g + Weave(gaps, texts)
  {
    if texts != [] {
      assert ([g + gaps[0]] + gaps[1..])[1..] == gaps[1..];
      var tail := Weave(gaps[1..], texts[1..]);
      assert (g + gaps[0]) + texts[0] + tail == g + (gaps[0] + texts[0] + tail);
    }
  }

  /** What the scanner passes over extends a blank gap to the left. */
  lemma GapGrows(s: string, g: string, n: nat)
    requires s != [] && StepAt(s).Skip? && StepAt(s).n == n
    requires g <= s[n..] && IsBlank(g)
    ensures IsBlank(s[..n] + g)
    ensures CountNewlines(s[..n]) == StepAt(s).lines
  {
    var t := s[..n] + g;
    assert t[0] == s[0];
    if IsSpace(s[0]) {
      assert t[1..] == g && s[..1] == [s[0]];
    } else {
      CountNewlinesNone(s[..n]);
      assert g != [] ==> g[0] == s[n..][0];
      SpanLocal(s, t, NotNewline);
      assert t[1] == s[1] && t[n..] == g;
    }
  }

  /** The source is the tokens woven with blank gaps, and the lines are right. */
  ghost predicate Accounts(gaps: seq<string>, ts: seq<Token>, s: string, line: nat) {
    && |gaps| == |ts| + 1
    && s == Weave(gaps, Texts(ts))
    && (forall g <- gaps :: IsBlank(g))
    && Numbered(gaps, ts, line)
  }

  lemma AccountSkip(gaps: seq<string>, ts: seq<Token>, s: string, line: nat)
    requires s != [] && StepAt(s).Skip?
    requires Accounts(gaps, ts, s[StepAt(s).n..], line + StepAt(s).lines)
    ensures Accounts([s[..StepAt(s).n] + gaps[0]] + gaps[1..], ts, s, line)
  {
    var n := StepAt(s).n;
    var longer := [s[..n] + gaps[0]] + gaps[1..];
    WeaveHead(s[..n], gaps, Texts(ts));
    assert s == s[..n] + s[n..];
    GapGrows(s, gaps[0], n);
    assert longer[1..] == gaps[1..];
    CountNewlinesConcat(s[..n], gaps[0]);
  }

  lemma AccountEmit(gaps: seq<string>, ts: seq<Token>, s: string, line: nat)
    requires s != [] && StepAt(s).Emit?
    requires Accounts(gaps, ts, s[StepAt(s).n..], line + StepAt(s).lines)
    ensures Accounts([""] + gaps, [Token(s[..StepAt(s).n], line + StepAt(s).lines)] + ts, s, line)
  {
    var n := StepAt(s).n;
    var t := Token(s[..n], line + StepAt(s).lines);
    StepLocal(s, s[..n]);
    assert ([""] + gaps)[1..] == gaps && ([t] + ts)[1..] == ts;
    assert Texts([t] + ts) == [t.text] + Texts(ts);
    assert ([t.text] + Texts(ts))[1..] == Texts(ts);
    assert s == "" + s[..n] + s[n..];
  }

  lemma AccountStep(rest: seq<string>, step: Step, tail: Scan, s: string, line: nat) returns (gaps: seq<string>)
    requires s != [] && StepAt(s) == step && !step.Bad?
    requires LexFrom(s[step.n..], line + step.lines) == tail && tail.Lexed?
    requires Accounts(rest, tail.tokens, s[step.n..], line + step.lines)
    ensures LexFrom(s, line).Lexed? && Accounts(gaps, LexFrom(s, line).tokens, s, line)
  {
    LexOnce(s, line);
    if step.Emit? {
      gaps := [""] + rest;
      AccountEmit(rest, tail.tokens, s, line);
    } else {
      gaps := [s[..step.n] + rest[0]] + rest[1..];
      AccountSkip(rest, tail.tokens, s, line);
    }
  }

  /** Lossless: every source that lexes is accounted for by its tokens. */
  lemma {:induction false} Lossless(s: string, line: nat) returns (gaps: seq<string>)
    requires LexFrom(s, line).Lexed?
    ensures Accounts(gaps, LexFrom(s, line).tokens, s, line)
    decreases |s|
  {
    if s == [] {
      gaps := [""];
    } else {
      LexOnce(s, line);
      var step := StepAt(s);
      var rest := Lossless(s[step.n..], line + step.lines);
      gaps := AccountStep(rest, step, LexFrom(s[step.n..], line + step.lines), s, line);
    }
  }

  /** When no token contains a newline, a token's line is 1 plus the newlines before it. */
  lemma {:induction false} LineIsNewlinesBefore(gaps: seq<string>, ts: seq<Token>, line: nat, i: nat)
    requires |gaps| == |ts| + 1 && Numbered(gaps, ts, line) && i < |ts|
    requires forall t <- ts :: '\n' !in t.text
    ensures ts[i].line == line + CountNewlines(Before(gaps, Texts(ts), i))
  {
    assert Texts(ts)[1..] == Texts(ts[1..]);
    NoTokenLines(ts[0].text);
    if i > 0 {
      LineIsNewlinesBefore(gaps[1..], ts[1..], ts[0].line, i - 1);
      var tail := Before(gaps[1..], Texts(ts)[1..], i - 1);
      CountNewlinesConcat(gaps[0] + ts[0].text, tail);
      CountNewlinesConcat(gaps[0], ts[0].text);
      CountNewlinesNone(ts[0].text);
    }
  }

  lemma {:induction false} NoBodyLines(s: string)
    requires '\n' !in s
    ensures BodyLines(s) == 0
  {
    if s != [] && s[0] != '"' {
      NoBodyLines(s[if s[0] == '\\' && 1 < |s| then 2 else 1..]);
    }
  }

  lemma NoTokenLines(w: string)
    requires '\n' !in w
    ensures TokenLines(w) == 0
  {
    if w != [] {
      NoBodyLines(w[1..]);
    }
  }

  // ---- In front of a newline ----

  lemma StepBeforeNewline(l: string, rest: string)
    requires '\n' !in l && l != [] && !StepAt(l).Bad?
    ensures StepAt(l + "\n" + rest) == StepAt(l)
  {
    var s := l + "\n" + rest;
    assert s[0] == l[0];
    if StepAt(l).Emit? {
      StepLocal(l, s);
    } else if StartsComment(l) {
      SpanUnique(l, NotNewline, |l|);
      SpanUnique(s, NotNewline, |l|);
    }
  }
}
