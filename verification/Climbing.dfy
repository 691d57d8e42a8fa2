/** The precedence-climbing expression parser, and the layered grammar it implements.

    Tokens are texts. The fragment has integer identifiers, decimal literals, parentheses,
    unary `!` and `-`, and all binary operators; where the compiler's parser would leave it (a
    call, an index, an assignment, ...) or raise an error, `Climb` is `Rejected`. */
module Climbing {
  import opened Text
  import opened Expressions
  import opened Fold

  /** `Crashed` says behind which token folding failed. */
  datatype Parsed = Parsed(e: Expr, next: nat) | Crashed(at: nat) | Rejected

  /** Token texts as the expression parser tells them apart. `Joiner` is a token that would
      continue an operand: a field, an index, a struct literal, an enum variant. */
  datatype Tok = Op(op: Binop) | Bang | Open | Close | Assign | Joiner | Name(s: string) | Num(n: nat) | Other

  predicate IsReserved(s: string) {
    s == "true" || s == "false" || s == "asm" || s == "null"
  }

  predicate IsName(s: string) {
    s != [] && IsWordStart(s[0]) && (forall c <- s :: IsWord(c)) && !IsReserved(s)
  }

  function Classify(s: string): Tok {
    if IsName(s) then Name(s)
    else if IsNumeral(s) then Num(ValueOf(s))
    else if OpOfText(s).Some? then Op(OpOfText(s).value)
    else if s == "!" then Bang
    else if s == "(" then Open
    else if s == ")" then Close
    else if s == "=" then Assign
    else if s == "." || s == "[" || s == "{" || s == "::" then Joiner
    else Other
  }

  /** The classes of the fixed texts the parser compares with. */
  lemma ClassifyFixed(s: string)
    ensures s == "(" <==> Classify(s) == Open
    ensures s == ")" <==> Classify(s) == Close
    ensures s == "=" ==> Classify(s) == Assign
    ensures s == "!" <==> Classify(s) == Bang
    ensures s == "-" <==> Classify(s) == Op(Sub)
    ensures s == "*" ==> Classify(s) == Op(Mul)
    ensures s == "." || s == "[" || s == "{" || s == "::" ==> Classify(s) == Joiner
    ensures s == "&" || s == "<eof>" ==> Classify(s) == Other
  {
    assert s != [] ==> s[0] in s;
    if OpOfText(s).Some? {
      SymbolOfOp(s);
    }
  }

  /** The class of an atom is decided by its first character. */
  lemma ClassifyAtom(s: string)
    requires s != []
    ensures IsReserved(s) ==> Classify(s) == Other
    ensures IsWordStart(s[0]) ==> Classify(s) == if IsName(s) then Name(s) else Other
    ensures IsDigit(s[0]) ==> Classify(s) == if IsNumeral(s) then Num(ValueOf(s)) else Other
    ensures s[0] == '"' ==> Classify(s) == Other
    ensures !IsWordStart(s[0]) && !IsDigit(s[0]) ==> !Classify(s).Name? && !Classify(s).Num?
  {
    assert s[0] in s;
  }

  lemma ClassifyOperator(s: string)
    ensures Classify(s).Op? <==> OpOfText(s).Some?
    ensures Classify(s).Op? ==> Classify(s).op == OpOfText(s).value && Symbol(Classify(s).op) == s
  {
    if OpOfText(s).Some? {
      SymbolOfOp(s);
      assert s[0] in s;
    }
  }

  function At(ts: seq<Tok>, i: nat): Tok {
    if i < |ts| then ts[i] else Other
  }

  predicate ContinuesOperand(t: Tok) {
    t.Open? || t.Joiner?
  }

  // ---- The parser (lines 964-1026), with folding as it goes ----

  function Climb(ts: seq<Tok>, i: nat, min: nat): (r: Parsed)
    requires i <= |ts|
    ensures r.Parsed? ==> i < r.next <= |ts|
    ensures r.Crashed? ==> i < r.at <= |ts|
    decreases |ts| - i, 2
  {
    match Operand(ts, i)
    case Parsed(e, j) => Loop(e, ts, j, min)
    case other => other
  }

  /** The loop of lines 995-1019, `left` being what has been parsed so far. */
  function Loop(left: Expr, ts: seq<Tok>, j: nat, min: nat): (r: Parsed)
    requires j <= |ts|
    ensures r.Parsed? ==> j <= r.next <= |ts|
    ensures r.Crashed? ==> j < r.at <= |ts|
    decreases |ts| - j, 3
  {
    var t := At(ts, j);
    if t.Op? && Level(t.op) >= min then
      match Climb(ts, j + 1, Level(t.op) + 1)
      case Parsed(right, k) =>
        (match MakeBin(t.op, left, right)
         case Ok(e) => Loop(e, ts, k, min)
         case Failed => Crashed(k))
      case other => other
    else if t.Assign? then Rejected
    else Parsed(left, j)
  }

  function Operand(ts: seq<Tok>, i: nat): (r: Parsed)
    requires i <= |ts|
    ensures r.Parsed? ==> i < r.next <= |ts|
    ensures r.Crashed? ==> i < r.at <= |ts|
    decreases |ts| - i, 1
  {
    match Unary(ts, i)
    case Parsed(e, j) => if ContinuesOperand(At(ts, j)) then Rejected else Parsed(e, j)
    case other => other
  }

  function Unary(ts: seq<Tok>, i: nat): (r: Parsed)
    requires i <= |ts|
    ensures r.Parsed? ==> i < r.next <= |ts|
    ensures r.Crashed? ==> i < r.at <= |ts|
    decreases |ts| - i, 0
  {
    match At(ts, i)
    case Bang => UnOf(Not, Operand(ts, i + 1))
    case Op(Sub) => UnOf(Neg, Operand(ts, i + 1))
    case Open =>
      (match Climb(ts, i + 1, 0)
       case Parsed(e, j) => if At(ts, j).Close? then Parsed(Paren(e), j + 1) else Rejected
       case other => other)
    case Name(s) => if At(ts, i + 1).Joiner? then Rejected else Parsed(Var(s), i + 1)
    case Num(n) => Parsed(Lit(n), i + 1)
    case _ => Rejected
  }

  function UnOf(op: Unop, operand: Parsed): Parsed {
    if operand.Parsed? then Parsed(Un(op, operand.e), operand.next) else operand
  }

  // ---- The layered grammar:  E(k) ::= E(k') op(k') E(k'+1) for k' >= k  |  operand ----

  const OPERAND_LEVEL: nat := 7

  function TopLevel(t: Expr): nat {
    if t.Bin? then Level(t.op) else OPERAND_LEVEL
  }

  /** `t` derives from level `k`: left operands at the operator's own level, right operands
      one level up. */
  predicate Leveled(t: Expr, k: nat) {
    TopLevel(t) >= k &&
    match t
    case Var(_) => true
    case Lit(_) => true
    case NegLit(_) => false
    case Paren(e) => Leveled(e, 0)
    case Un(_, e) => Leveled(e, OPERAND_LEVEL)
    case Bin(op, l, r) => Leveled(l, Level(op)) && Leveled(r, Level(op) + 1)
  }

  /** The tokens a tree derives. */
  function Flatten(t: Expr): (r: seq<Tok>)
    ensures r != []
  {
    match t
    case Var(name) => [Name(name)]
    case Lit(n) => [Num(n)]
    case NegLit(n) => [Op(Sub), Num(n)]
    case Paren(e) => [Open] + Flatten(e) + [Close]
    case Un(op, e) => [UnTok(op)] + Flatten(e)
    case Bin(op, l, r) => Flatten(l) + [Op(op)] + Flatten(r)
  }

  function UnTok(op: Unop): Tok {
    if op.Not? then Bang else Op(Sub)
  }

  /** `part` stands in `ts` at `i`. */
  ghost predicate Stands(part: seq<Tok>, ts: seq<Tok>, i: nat) {
    i + |part| <= |ts| && forall n :: 0 <= n < |part| ==> ts[i + n] == part[n]
  }

  /** What may follow a complete expression: no stronger operator, nothing that continues an
      operand, no assignment. */
  predicate Follows(t: Tok, top: nat) {
    (t.Op? ==> Level(t.op) <= top) && !ContinuesOperand(t) && !t.Assign?
  }

  /** `p` goes on in the loop at `j` with what `c` compiled to, or crashed before it. */
  predicate Resumes(p: Parsed, c: Compiled, ts: seq<Tok>, j: nat, k: nat)
    requires j <= |ts|
  {
    if c.Ok? then p == Loop(c.e, ts, j, k) else p.Crashed? && p.at <= j
  }

  predicate Completes(p: Parsed, c: Compiled, j: nat) {
    if c.Ok? then p == Parsed(c.e, j) else p.Crashed? && p.at <= j
  }

  lemma Stands3(a: seq<Tok>, s: Tok, b: seq<Tok>, ts: seq<Tok>, i: nat)
    requires Stands(a + [s] + b, ts, i)
    ensures Stands(a, ts, i) && At(ts, i + |a|) == s && Stands(b, ts, i + |a| + 1)
  {
    var w := a + [s] + b;
    assert forall n :: 0 <= n < |a| ==> a[n] == w[n];
    assert w[|a|] == s;
    assert forall n :: 0 <= n < |b| ==> b[n] == w[|a| + 1 + n];
  }

  lemma StandsInside(a: Tok, w: seq<Tok>, b: Tok, ts: seq<Tok>, i: nat)
    requires Stands([a] + w + [b], ts, i)
    ensures At(ts, i) == a && Stands(w, ts, i + 1) && At(ts, i + 1 + |w|) == b
  {
    Stands3([a] + w, b, [], ts, i) by {
      assert [a] + w + [b] + [] == [a] + w + [b];
    }
    StandsFirst(a, w, ts, i);
  }

  lemma StandsFirst(a: Tok, w: seq<Tok>, ts: seq<Tok>, i: nat)
    requires Stands([a] + w, ts, i)
    ensures At(ts, i) == a && Stands(w, ts, i + 1)
  {
    assert ([a] + w)[0] == a;
    assert forall n :: 0 <= n < |w| ==> w[n] == ([a] + w)[n + 1];
  }

  lemma LeveledAt(t: Expr, k: nat, m: nat)
    requires Leveled(t, k) && TopLevel(t) >= m
    ensures Leveled(t, m)
  {
  }

  lemma ParenTurn(e: Expr, ts: seq<Tok>, i: nat, j: nat)
    requires i < j <= |ts| && At(ts, i).Open? && At(ts, j).Close?
    requires Resumes(Climb(ts, i + 1, 0), Compile(e), ts, j, 0)
    ensures Completes(Unary(ts, i), Compile(Paren(e)), j + 1)
  {
    if Compile(e).Ok? {
      assert Loop(Compile(e).e, ts, j, 0) == Parsed(Compile(e).e, j);
    }
  }

  lemma UnaryTurn(op: Unop, e: Expr, ts: seq<Tok>, i: nat, j: nat)
    requires i < |ts| && At(ts, i) == UnTok(op) && Completes(Operand(ts, i + 1), Compile(e), j)
    ensures Completes(Unary(ts, i), Compile(Un(op, e)), j)
  {
  }

  lemma {:induction false} UnaryComplete(t: Expr, ts: seq<Tok>, i: nat)
    requires Leveled(t, OPERAND_LEVEL) && Stands(Flatten(t), ts, i)
    requires !ContinuesOperand(At(ts, i + |Flatten(t)|))
    ensures Completes(Unary(ts, i), Compile(t), i + |Flatten(t)|)
    decreases t, 0
  {
    match t
    case Var(name) => StandsFirst(Name(name), [], ts, i);
    case Lit(n) => StandsFirst(Num(n), [], ts, i);
    case Paren(e) =>
      StandsInside(Open, Flatten(e), Close, ts, i);
      ClimbComplete(e, ts, i + 1, 0);
      ParenTurn(e, ts, i, i + 1 + |Flatten(e)|);
    case Un(op, e) =>
      StandsFirst(UnTok(op), Flatten(e), ts, i);
      OperandComplete(e, ts, i + 1);
      UnaryTurn(op, e, ts, i, i + |Flatten(t)|);
  }

  /** Completeness for operands. */
  lemma {:induction false} OperandComplete(t: Expr, ts: seq<Tok>, i: nat)
    requires Leveled(t, OPERAND_LEVEL) && Stands(Flatten(t), ts, i)
    requires !ContinuesOperand(At(ts, i + |Flatten(t)|))
    ensures Completes(Operand(ts, i), Compile(t), i + |Flatten(t)|)
    decreases t, 1
  {
    UnaryComplete(t, ts, i);
  }

  /** Completeness: on the tokens of any derivation the parser rebuilds its tree, folded, and
      carries on in its loop. */
  lemma {:induction false} ClimbComplete(t: Expr, ts: seq<Tok>, i: nat, k: nat)
    requires Leveled(t, k) && Stands(Flatten(t), ts, i)
    requires Follows(At(ts, i + |Flatten(t)|), TopLevel(t))
    ensures Resumes(Climb(ts, i, k), Compile(t), ts, i + |Flatten(t)|, k)
    decreases t, 2
  {
    if !t.Bin? {
      LeveledAt(t, k, OPERAND_LEVEL);
      OperandComplete(t, ts, i);
      OperandTurn(Compile(t), ts, i, i + |Flatten(t)|, k);
    } else {
      BinComplete(t, ts, i, k);
    }
  }

  lemma {:induction false} BinComplete(t: Expr, ts: seq<Tok>, i: nat, k: nat)
    requires t.Bin? && Leveled(t, k) && Stands(Flatten(t), ts, i)
    requires Follows(At(ts, i + |Flatten(t)|), TopLevel(t))
    ensures Resumes(Climb(ts, i, k), Compile(t), ts, i + |Flatten(t)|, k)
    decreases t, 0
  {
    var m := i + |Flatten(t.l)|;
    BinStands(t, ts, i);
    BinOperands(t, k);
    ClimbComplete(t.l, ts, i, k);
    ClimbComplete(t.r, ts, m + 1, Level(t.op) + 1);
    BinTurn(t, ts, i, m, i + |Flatten(t)|, k);
  }

  lemma OperandTurn(c: Compiled, ts: seq<Tok>, i: nat, j: nat, k: nat)
    requires i <= j <= |ts| && Completes(Operand(ts, i), c, j)
    ensures Resumes(Climb(ts, i, k), c, ts, j, k)
  {
  }

  lemma BinOperands(t: Expr, k: nat)
    requires t.Bin? && Leveled(t, k)
    ensures Leveled(t.l, k) && Leveled(t.r, Level(t.op) + 1)
    ensures k <= Level(t.op) <= TopLevel(t.l) && Level(t.op) < TopLevel(t.r)
  {
    LeveledAt(t.l, Level(t.op), k);
  }

  lemma BinStands(t: Expr, ts: seq<Tok>, i: nat)
    requires t.Bin? && Stands(Flatten(t), ts, i)
    ensures var m := i + |Flatten(t.l)|;
            Stands(Flatten(t.l), ts, i) && At(ts, m) == Op(t.op) && Stands(Flatten(t.r), ts, m + 1) &&
            m + 1 + |Flatten(t.r)| == i + |Flatten(t)|
  {
    Stands3(Flatten(t.l), Op(t.op), Flatten(t.r), ts, i);
  }

  /** One turn of the loop, both operands being known. */
  lemma BinTurn(t: Expr, ts: seq<Tok>, i: nat, m: nat, j: nat, k: nat)
    requires t.Bin? && Level(t.op) >= k && i <= m < j <= |ts| && At(ts, m) == Op(t.op)
    requires Resumes(Climb(ts, i, k), Compile(t.l), ts, m, k)
    requires Resumes(Climb(ts, m + 1, Level(t.op) + 1), Compile(t.r), ts, j, Level(t.op) + 1)
    requires Follows(At(ts, j), Level(t.op))
    ensures Resumes(Climb(ts, i, k), Compile(t), ts, j, k)
  {
    assert Compile(t) == CompileBin(t);
    if Compile(t.l).Ok? && Compile(t.r).Ok? {
      var x, y := Compile(t.l).e, Compile(t.r).e;
      assert Loop(y, ts, j, Level(t.op) + 1) == Parsed(y, j);
      assert Compile(t) == MakeBin(t.op, x, y);
      assert Resumes(Loop(x, ts, m, k), Compile(t), ts, j, k);
    }
  }

  /** The same for a whole expression: what follows is neither an operator nor a continuation. */
  lemma ParserComplete(t: Expr, ts: seq<Tok>, i: nat)
    requires Leveled(t, 0) && Stands(Flatten(t), ts, i)
    requires Follows(At(ts, i + |Flatten(t)|), 0)
    ensures Completes(Climb(ts, i, 0), Compile(t), i + |Flatten(t)|)
  {
    ClimbComplete(t, ts, i, 0);
  }

  // ---- Soundness: whatever the parser accepts derives from the grammar ----

  /** `t` derives the tokens from `i` to `j` and compiles to `e`. */
  ghost predicate Derives(t: Expr, k: nat, ts: seq<Tok>, i: nat, j: nat, e: Expr) {
    && i <= j <= |ts| && ts[i..j] == Flatten(t)
    && Leveled(t, k)
    && Compile(t) == Ok(e)
  }

  lemma SliceAt(ts: seq<Tok>, i: nat, j: nat, k: nat)
    requires i <= j < k <= |ts|
    ensures ts[i..k] == ts[i..j] + [ts[j]] + ts[j + 1..k]
  {
  }

  lemma {:induction false} OperandSound(ts: seq<Tok>, i: nat) returns (t: Expr)
    requires i <= |ts| && Operand(ts, i).Parsed?
    ensures Derives(t, OPERAND_LEVEL, ts, i, Operand(ts, i).next, Operand(ts, i).e)
    decreases |ts| - i, 0
  {
    var j := Operand(ts, i).next;
    var f := At(ts, i);
    if f.Name? {
      t := Var(f.s);
    } else if f.Num? {
      t := Lit(f.n);
    } else if f.Open? {
      var e := ClimbSound(ts, i + 1, 0);
      t := Paren(e);
      SliceAt(ts, i, i, j);
      SliceAt(ts, i + 1, j - 1, j);
      assert ts[i..i] + [Open] == [Open] && ts[j..j] == [];
    } else {
      var e := OperandSound(ts, i + 1);
      t := Un(if f.Bang? then Not else Neg, e);
      SliceAt(ts, i, i, j);
    }
  }

  lemma {:induction false} ClimbSound(ts: seq<Tok>, i: nat, k: nat) returns (t: Expr)
    requires i <= |ts| && k <= OPERAND_LEVEL && Climb(ts, i, k).Parsed?
    ensures Derives(t, k, ts, i, Climb(ts, i, k).next, Climb(ts, i, k).e)
    ensures var f := At(ts, Climb(ts, i, k).next); !(f.Op? && Level(f.op) >= k) && !f.Assign?
    decreases |ts| - i, 2
  {
    var left := OperandSound(ts, i);
    LeveledAt(left, OPERAND_LEVEL, k);
    t := LoopSound(left, ts, i, Operand(ts, i).next, k, Operand(ts, i).e);
  }

  lemma {:induction false} LoopSound(left: Expr, ts: seq<Tok>, i: nat, j: nat, k: nat, e: Expr) returns (t: Expr)
    requires k <= OPERAND_LEVEL && i < j && Derives(left, k, ts, i, j, e) && Loop(e, ts, j, k).Parsed?
    requires At(ts, j).Op? ==> Level(At(ts, j).op) <= TopLevel(left)
    ensures Derives(t, k, ts, i, Loop(e, ts, j, k).next, Loop(e, ts, j, k).e)
    ensures var f := At(ts, Loop(e, ts, j, k).next); !(f.Op? && Level(f.op) >= k) && !f.Assign?
    decreases |ts| - j, 3
  {
    var f := At(ts, j);
    if f.Op? && Level(f.op) >= k {
      var right := ClimbSound(ts, j + 1, Level(f.op) + 1);
      var r := Climb(ts, j + 1, Level(f.op) + 1);
      LeveledAt(left, k, Level(f.op));
      var both := Bin(f.op, left, right);
      SliceAt(ts, i, j, r.next);
      assert Compile(both) == CompileBin(both) == MakeBin(f.op, e, r.e);
      t := LoopSound(both, ts, i, r.next, k, MakeBin(f.op, e, r.e).e);
    } else {
      t := left;
    }
  }

  /** The compiler's parser accepts exactly the grammar's expressions, and what it returns has
      the value of any derivation of the same tokens: operators, precedence, associativity,
      short circuit, division by zero and overflow included. */
  lemma ParserMeansGrammar(ts: seq<Tok>, i: nat, j: nat, t: Expr, env: Env)
    requires Leveled(t, 0) && i <= j <= |ts| && ts[i..j] == Flatten(t) && Follows(At(ts, j), 0)
    ensures Compile(t).Failed? ==> Climb(ts, i, 0).Crashed?
    ensures Compile(t).Ok? ==>
              Climb(ts, i, 0).Parsed? && Climb(ts, i, 0).next == j &&
              Eval(Climb(ts, i, 0).e, env) == Eval(t, env)
  {
    ParserComplete(t, ts, i);
    if Compile(t).Ok? {
      CompilePreserves(t, env);
    }
  }
}
