/** The emitted text of an expression, scanned and parsed again, keeps its value. */
module EmitRoundTrip {
  import opened Text
  import opened Lexer
  import opened LexerLaws
  import opened Expressions
  import opened Fold
  import opened Climbing

  // ---- What compiled expressions look like ----

  predicate Named(t: Expr) {
    match t
    case Var(name) => IsName(name)
    case Lit(_) => true
    case NegLit(_) => true
    case Paren(e) => Named(e)
    case Un(_, e) => Named(e)
    case Bin(_, l, r) => Named(l) && Named(r)
  }

  /** A compiled expression: nothing is left to fold, and a negative literal is never the
      operand of a unary operator, so that `--` is never emitted. */
  predicate Settled(o: Expr) {
    match o
    case Var(name) => IsName(name)
    case Lit(_) => true
    case NegLit(_) => true
    case Paren(e) => Settled(e)
    case Un(_, e) => Settled(e) && !e.NegLit?
    case Bin(op, l, r) => Settled(l) && Settled(r) && TryFold(op, l, r).NoFold?
  }

  lemma {:induction false} CompileSettles(t: Expr, k: nat)
    requires Leveled(t, k) && Named(t) && Compile(t).Ok?
    ensures Settled(Compile(t).e)
    ensures !t.Bin? ==> !Compile(t).e.NegLit?
  {
    match t
    case Var(_) =>
    case Lit(_) =>
    case Paren(e) => CompileSettles(e, 0);
    case Un(_, e) => CompileSettles(e, OPERAND_LEVEL);
    case Bin(op, l, r) =>
      assert CompileBin(t).Ok?;
      CompileSettles(l, Level(op));
      CompileSettles(r, Level(op) + 1);
  }

  // ---- C reads `--` as one token ----

  /** No two adjacent minus signs. */
  ghost predicate NoDecrement(s: string) {
    forall i :: 0 < i < |s| ==> s[i] != '-' || s[i - 1] != '-'
  }

  lemma Joined(a: string, b: string)
    requires NoDecrement(a) && NoDecrement(b)
    requires a == [] || b == [] || a[|a| - 1] != '-' || b[0] != '-'
    ensures NoDecrement(a + b)
  {
  }

  lemma WordHasNoMinus(s: string)
    requires forall c <- s :: c != '-'
    ensures NoDecrement(s)
  {
    assert forall i :: 0 <= i < |s| ==> s[i] in s;
  }

  lemma Bracketed(open: string, s: string)
    requires NoDecrement(open) && NoDecrement(s) && open != [] && s != []
    requires open[|open| - 1] != '-' || s[0] != '-'
    ensures NoDecrement(open + s + ")")
  {
    Joined(open, s);
    Joined(open + s, ")");
  }

  /** The text emitted for a compiled expression has no `--` in it, which the compiler's own
      scanner would split and C would not. */
  lemma {:induction false} EmitsNoDecrement(o: Expr)
    requires Settled(o)
    ensures Print(o) != [] && NoDecrement(Print(o))
    ensures !o.NegLit? ==> Print(o)[0] != '-'
  {
    match o
    case Var(name) =>
      WordHasNoMinus(name);
      assert name[0] in name;
    case Lit(n) =>
      WordHasNoMinus(Decimal(n));
      assert Decimal(n)[0] in Decimal(n);
    case NegLit(n) =>
      WordHasNoMinus(Decimal(n));
      assert Decimal(n)[0] in Decimal(n);
      Joined("-", Decimal(n));
    case Paren(e) =>
      EmitsNoDecrement(e);
      Bracketed("(", Print(e));
    case Un(op, e) =>
      EmitsNoDecrement(e);
      Joined("(", [UnSymbol(op)]);
      Bracketed("(" + [UnSymbol(op)], Print(e));
    case Bin(op, l, r) =>
      EmitsNoDecrement(l);
      EmitsNoDecrement(r);
      Joined("(", Print(l));
      Joined("(" + Print(l), " ");
      Joined("(" + Print(l) + " ", Symbol(op));
      Joined("(" + Print(l) + " " + Symbol(op), " ");
      Bracketed("(" + Print(l) + " " + Symbol(op) + " ", Print(r));
  }

  // ---- The source tree the emitted text spells ----

  function Reparse(o: Expr): Expr {
    match o
    case Var(_) => o
    case Lit(_) => o
    case NegLit(n) => Un(Neg, Lit(n))
    case Paren(e) => Paren(Reparse(e))
    case Un(op, e) => Paren(Un(op, Reparse(e)))
    case Bin(op, l, r) => Paren(Bin(op, Reparse(l), Reparse(r)))
  }

  lemma {:induction false} ReparseIsOperand(o: Expr)
    ensures Leveled(Reparse(o), OPERAND_LEVEL) && Leveled(Reparse(o), 0)
  {
    match o
    case Var(_) =>
    case Lit(_) =>
    case NegLit(_) =>
    case Paren(e) => ReparseIsOperand(e);
    case Un(op, e) => ReparseIsOperand(e);
    case Bin(op, l, r) =>
      ReparseIsOperand(l);
      ReparseIsOperand(r);
      LeveledAt(Reparse(l), OPERAND_LEVEL, Level(op));
      LeveledAt(Reparse(r), OPERAND_LEVEL, Level(op) + 1);
  }

  lemma {:induction false} ReparseKeepsValue(o: Expr, env: Env)
    ensures Eval(Reparse(o), env) == Eval(o, env)
  {
    match o
    case Var(_) =>
    case Lit(_) =>
    case NegLit(_) =>
    case Paren(e) => ReparseKeepsValue(e, env);
    case Un(_, e) => ReparseKeepsValue(e, env);
    case Bin(_, l, r) =>
      ReparseKeepsValue(l, env);
      ReparseKeepsValue(r, env);
  }

  /** Compiling the emitted text again cannot fail: whatever could be folded was. */
  lemma {:induction false} ReparseCompiles(o: Expr)
    requires Settled(o)
    ensures Compile(Reparse(o)).Ok?
    ensures Compile(Reparse(o)).e.Lit? ==> Compile(Reparse(o)).e == o
  {
    match o
    case Var(_) =>
    case Lit(_) =>
    case NegLit(_) =>
    case Paren(e) => ReparseCompiles(e);
    case Un(op, e) =>
      ReparseCompiles(e);
      assert Compile(Un(op, Reparse(e))).Ok?;
    case Bin(op, l, r) =>
      ReparseCompiles(l);
      ReparseCompiles(r);
      var b := Bin(op, Reparse(l), Reparse(r));
      assert Compile(b) == CompileBin(b) == MakeBin(op, Compile(b.l).e, Compile(b.r).e);
  }

  // ---- Scanning the emitted text ----

  /** The words of the emitted text. */
  function Words(o: Expr): seq<string> {
    match o
    case Var(name) => [name]
    case Lit(n) => [Decimal(n)]
    case NegLit(n) => ["-", Decimal(n)]
    case Paren(e) => ["("] + Words(e) + [")"]
    case Un(op, e) => ["(", [UnSymbol(op)]] + Words(e) + [")"]
    case Bin(op, l, r) => ["("] + Words(l) + [Symbol(op)] + Words(r) + [")"]
  }

  function OnLine(words: seq<string>, line: nat): seq<Token> {
    seq(|words|, i requires 0 <= i < |words| => Token(words[i], line))
  }

  function ClassifyAll(words: seq<string>): seq<Tok> {
    seq(|words|, i requires 0 <= i < |words| => Classify(words[i]))
  }

  lemma ClassifySymbol(op: Binop)
    ensures Classify(Symbol(op)) == Op(op)
  {
    OpOfSymbol(op);
    ClassifyOperator(Symbol(op));
  }

  lemma ClassifyNumeral(n: nat)
    ensures Classify(Decimal(n)) == Num(n)
  {
    ValueOfDecimal(n);
    assert Decimal(n)[0] in Decimal(n);
  }

  lemma ClassifyPunctuation()
    ensures Classify("(") == Open && Classify(")") == Close
    ensures Classify([UnSymbol(Not)]) == UnTok(Not) && Classify([UnSymbol(Neg)]) == UnTok(Neg) == Op(Sub)
    ensures Classify("-") == Op(Sub)
  {
    ClassifyFixed("(");
    ClassifyFixed(")");
    ClassifyFixed("!");
    ClassifyFixed("-");
    assert [UnSymbol(Not)] == "!" && [UnSymbol(Neg)] == "-";
  }

  lemma {:induction false} WordsSpellReparse(o: Expr)
    requires Settled(o)
    ensures ClassifyAll(Words(o)) == Flatten(Reparse(o))
  {
    match o
    case Var(name) =>
    case Lit(n) => ClassifyNumeral(n);
    case NegLit(n) => NegativeSpelled(n);
    case Paren(e) =>
      WordsSpellReparse(e);
      ParenSpelled(Words(e), Reparse(e));
    case Un(op, e) =>
      WordsSpellReparse(e);
      UnSpelled(op, Words(e), Reparse(e));
    case Bin(op, l, r) =>
      WordsSpellReparse(l);
      WordsSpellReparse(r);
      BinSpelled(op, Words(l), Words(r), Reparse(l), Reparse(r));
  }

  lemma ClassifyInfix(ws: seq<string>, s: string, vs: seq<string>)
    ensures ClassifyAll(ws + [s] + vs) == ClassifyAll(ws) + [Classify(s)] + ClassifyAll(vs)
  {
  }

  lemma ClassifyBracket(open: string, ws: seq<string>, close: string)
    ensures ClassifyAll([open] + ws + [close]) == [Classify(open)] + ClassifyAll(ws) + [Classify(close)]
  {
  }

  lemma NegativeSpelled(n: nat)
    ensures ClassifyAll(["-", Decimal(n)]) == [Op(Sub), Num(n)]
  {
    ClassifyPunctuation();
    ClassifyNumeral(n);
  }

  lemma ParenSpelled(ws: seq<string>, t: Expr)
    requires ClassifyAll(ws) == Flatten(t)
    ensures ClassifyAll(["("] + ws + [")"]) == Flatten(Paren(t))
  {
    ClassifyPunctuation();
    ClassifyBracket("(", ws, ")");
  }

  lemma UnSpelled(op: Unop, ws: seq<string>, t: Expr)
    requires ClassifyAll(ws) == Flatten(t)
    ensures ClassifyAll(["(", [UnSymbol(op)]] + ws + [")"]) == Flatten(Paren(Un(op, t)))
  {
    var o := [UnSymbol(op)];
    ClassifyPunctuation();
    ClassifyInfix([], o, ws);
    assert ClassifyAll([o] + ws) == Flatten(Un(op, t)) by {
      assert [] + [o] + ws == [o] + ws;
    }
    assert ["(", o] + ws == ["("] + ([o] + ws);
    ParenSpelled([o] + ws, Un(op, t));
  }

  lemma BinSpelled(op: Binop, ws: seq<string>, vs: seq<string>, l: Expr, r: Expr)
    requires ClassifyAll(ws) == Flatten(l) && ClassifyAll(vs) == Flatten(r)
    ensures ClassifyAll(["("] + ws + [Symbol(op)] + vs + [")"]) == Flatten(Paren(Bin(op, l, r)))
  {
    var s := Symbol(op);
    ClassifySymbol(op);
    ClassifyInfix(ws, s, vs);
    assert ["("] + ws + [s] + vs == ["("] + (ws + [s] + vs);
    ParenSpelled(ws + [s] + vs, Bin(op, l, r));
  }

  /** What stands after an operand in emitted text. */
  predicate Closer(rest: string) {
    rest == [] || rest[0] == ' ' || rest[0] == ')'
  }

  /** In front of `rest`, the text `p` scans to the tokens `words`, all on one line. */
  ghost predicate Scans(p: string, words: seq<string>, rest: string, line: nat) {
    LexFrom(p + rest, line) == LexFrom(rest, line).Prepend(OnLine(words, line))
  }

  lemma ScansConcat(p: string, ws: seq<string>, q: string, vs: seq<string>, rest: string, line: nat)
    requires Scans(p, ws, q + rest, line) && Scans(q, vs, rest, line)
    ensures Scans(p + q, ws + vs, rest, line)
  {
    assert p + q + rest == p + (q + rest);
    assert OnLine(ws + vs, line) == OnLine(ws, line) + OnLine(vs, line);
    PrependAssoc(LexFrom(rest, line), OnLine(vs, line), OnLine(ws, line));
  }

  lemma ScansToken(w: string, rest: string, line: nat)
    requires w != [] && StepAt(w + rest) == Emit(|w|, 0)
    ensures Scans(w, [w], rest, line)
  {
    LexOnce(w + rest, line);
    assert (w + rest)[..|w|] == w && (w + rest)[|w|..] == rest;
    assert OnLine([w], line) == [Token(w, line)];
  }

  lemma ScansBracket(c: char, rest: string, line: nat)
    requires c == '(' || c == ')'
    ensures Scans([c], [[c]], rest, line)
  {
    ScansToken([c], rest, line);
  }

  lemma ScansUnary(op: Unop, rest: string, line: nat)
    requires rest != [] && rest[0] != '=' && rest[0] != '>'
    ensures Scans([UnSymbol(op)], [[UnSymbol(op)]], rest, line)
  {
    ScansToken([UnSymbol(op)], rest, line);
  }

  lemma ScansNothing(rest: string, line: nat)
    ensures Scans("", [], rest, line)
  {
    assert "" + rest == rest && OnLine([], line) == [];
  }

  lemma ScansSpace(rest: string, line: nat)
    ensures Scans(" ", [], rest, line)
  {
    SkipSpace(' ', rest, line);
    assert " " + rest == [' '] + rest;
  }

  lemma ScansSymbol(op: Binop, rest: string, line: nat)
    requires rest != [] && rest[0] == ' '
    ensures Scans(Symbol(op), [Symbol(op)], rest, line)
  {
    ScansToken(Symbol(op), rest, line);
  }

  lemma ScansName(name: string, rest: string, line: nat)
    requires IsName(name) && Closer(rest)
    ensures Scans(name, [name], rest, line)
  {
    assert forall i :: 0 <= i < |name| ==> name[i] in name;
    SpanUnique((name + rest)[1..], IsWord, |name| - 1);
    ScansToken(name, rest, line);
  }

  lemma ScansNumeral(n: nat, rest: string, line: nat)
    requires Closer(rest)
    ensures Scans(Decimal(n), [Decimal(n)], rest, line)
  {
    var d := Decimal(n);
    assert forall i :: 0 <= i < |d| ==> d[i] in d;
    SpanUnique(d + rest, IsDigit, |d|);
    assert NumberLength(d + rest) == |d|;
    ScansToken(d, rest, line);
  }

  /** The infix part ` op right)` of a binary expression. */
  lemma ScansRight(op: Binop, p: string, ws: seq<string>, rest: string, line: nat)
    requires Scans(p, ws, ")" + rest, line)
    ensures Scans(" " + Symbol(op) + " " + p + ")", [Symbol(op)] + ws + [")"], rest, line)
  {
    ScansBracket(')', rest, line);
    ScansConcat(p, ws, ")", [")"], rest, line);
    ScansSpace(p + ")" + rest, line);
    assert " " + (p + ")") + rest == " " + (p + ")" + rest);
    ScansConcat(" ", [], p + ")", ws + [")"], rest, line);
    assert [] + (ws + [")"]) == ws + [")"];
    var tail := " " + (p + ")");
    ScansSymbol(op, tail + rest, line);
    ScansConcat(Symbol(op), [Symbol(op)], tail, ws + [")"], rest, line);
    ScansSpace(Symbol(op) + tail + rest, line);
    ScansConcat(" ", [], Symbol(op) + tail, [Symbol(op)] + (ws + [")"]), rest, line);
    assert " " + (Symbol(op) + tail) == " " + Symbol(op) + " " + p + ")";
    assert [] + ([Symbol(op)] + (ws + [")"])) == [Symbol(op)] + ws + [")"];
  }

  lemma {:induction false} PrintStarts(o: Expr)
    requires Settled(o)
    ensures Print(o) != [] && Print(o)[0] != '=' && Print(o)[0] != '>'
  {
    match o
    case Var(name) =>
    case Lit(n) => assert Decimal(n)[0] in Decimal(n);
    case NegLit(_) =>
    case Paren(_) =>
    case Un(_, _) =>
    case Bin(_, _, _) =>
  }

  /** The emitted text scans to its words. */
  lemma {:induction false} PrintScans(o: Expr, rest: string, line: nat)
    requires Settled(o) && Closer(rest)
    ensures Scans(Print(o), Words(o), rest, line)
  {
    match o
    case Var(name) => ScansName(name, rest, line);
    case Lit(n) => ScansNumeral(n, rest, line);
    case NegLit(n) =>
      ScansNumeral(n, rest, line);
      assert Decimal(n)[0] in Decimal(n);
      ScansUnary(Neg, Decimal(n) + rest, line);
      ScansConcat("-", ["-"], Decimal(n), [Decimal(n)], rest, line);
    case Paren(e) =>
      PrintScans(e, ")" + rest, line);
      ScansNothing(Print(e) + (")" + rest), line);
      ScansWrapped("", [], e, rest, line);
      assert "(" + "" + Print(e) + ")" == Print(o) && ["("] + [] + Words(e) + [")"] == Words(o);
    case Un(op, e) =>
      PrintScans(e, ")" + rest, line);
      PrintStarts(e);
      ScansUnary(op, Print(e) + (")" + rest), line);
      ScansWrapped([UnSymbol(op)], [[UnSymbol(op)]], e, rest, line);
      assert ["("] + [[UnSymbol(op)]] + Words(e) + [")"] == Words(o);
    case Bin(op, l, r) =>
      var q := " " + Symbol(op) + " " + Print(r) + ")";
      PrintScans(r, ")" + rest, line);
      PrintScans(l, q + rest, line);
      ScansBinary(op, l, r, rest, line);
  }

  lemma ScansBinary(op: Binop, l: Expr, r: Expr, rest: string, line: nat)
    requires Scans(Print(r), Words(r), ")" + rest, line)
    requires Scans(Print(l), Words(l), " " + Symbol(op) + " " + Print(r) + ")" + rest, line)
    ensures Scans(Print(Bin(op, l, r)), Words(Bin(op, l, r)), rest, line)
  {
    var q, vs := " " + Symbol(op) + " " + Print(r) + ")", [Symbol(op)] + Words(r) + [")"];
    ScansRight(op, Print(r), Words(r), rest, line);
    ScansLeft(Print(l), Words(l), q, vs, rest, line);
    BinPrinted(op, l, r, Print(l), Print(r), Words(l), Words(r));
  }

  lemma BinPrinted(op: Binop, l: Expr, r: Expr, p: string, q: string, ws: seq<string>, vs: seq<string>)
    requires p == Print(l) && q == Print(r) && ws == Words(l) && vs == Words(r)
    ensures Print(Bin(op, l, r)) == "(" + (p + (" " + Symbol(op) + " " + q + ")"))
    ensures Words(Bin(op, l, r)) == ["("] + (ws + ([Symbol(op)] + vs + [")"]))
  {
  }

  lemma ScansLeft(p: string, ws: seq<string>, q: string, vs: seq<string>, rest: string, line: nat)
    requires Scans(p, ws, q + rest, line) && Scans(q, vs, rest, line)
    ensures Scans("(" + (p + q), ["("] + (ws + vs), rest, line)
  {
    ScansConcat(p, ws, q, vs, rest, line);
    ScansBracket('(', p + q + rest, line);
    ScansConcat("(", ["("], p + q, ws + vs, rest, line);
  }

  /** `(`, an optional prefix, an operand and `)`. */
  lemma ScansWrapped(p: string, ws: seq<string>, e: Expr, rest: string, line: nat)
    requires Scans(Print(e), Words(e), ")" + rest, line)
    requires Scans(p, ws, Print(e) + (")" + rest), line)
    ensures Scans("(" + p + Print(e) + ")", ["("] + ws + Words(e) + [")"], rest, line)
  {
    ScansBracket(')', rest, line);
    ScansConcat(p, ws, Print(e), Words(e), ")" + rest, line);
    ScansConcat(p + Print(e), ws + Words(e), ")", [")"], rest, line);
    var q := p + Print(e) + ")";
    ScansBracket('(', q + rest, line);
    ScansConcat("(", ["("], q, ws + Words(e) + [")"], rest, line);
    assert "(" + q == "(" + p + Print(e) + ")";
    assert ["("] + (ws + Words(e) + [")"]) == ["("] + ws + Words(e) + [")"];
  }

  // ---- The round trip ----

  /** Emit and parse again: the text emitted for an expression scans, its tokens derive a tree
      of the grammar with the value of the original, and the compiler's own parser takes all
      of them and returns an expression of that value too. */
  lemma EmitParseRoundTrip(t: Expr, env: Env)
    requires Leveled(t, 0) && Named(t) && Compile(t).Ok?
    ensures var text := Print(Compile(t).e);
            LexFrom(text, 1).Lexed? &&
            var ts := ClassifyAll(Texts(LexFrom(text, 1).tokens));
            var back := Climb(ts, 0, 0);
            ts == Flatten(Reparse(Compile(t).e)) && Leveled(Reparse(Compile(t).e), 0) &&
            Eval(Reparse(Compile(t).e), env) == Eval(t, env) &&
            back.Parsed? && back.next == |ts| && Eval(back.e, env) == Eval(t, env)
  {
    var o := Compile(t).e;
    CompileSettles(t, 0);
    CompilePreserves(t, env);
    PrintScans(o, "", 1);
    assert Print(o) + "" == Print(o);
    assert LexFrom(Print(o), 1).tokens == OnLine(Words(o), 1);
    assert Texts(OnLine(Words(o), 1)) == Words(o);
    WordsSpellReparse(o);
    ReparseIsOperand(o);
    ReparseKeepsValue(o, env);
    ReparseCompiles(o);
    var ts := Flatten(Reparse(o));
    assert ts[0..|ts|] == ts;
    ParserMeansGrammar(ts, 0, |ts|, Reparse(o), env);
  }
}
