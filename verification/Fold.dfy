/** On-the-fly constant folding (`try_fold`) and its correctness. */
module Fold {
  import opened Text
  import opened Words
  import opened Expressions

  /** The outcome of an attempt to fold. `Crash` is `stoll` out of range, which ends the compiler;
      it also stands for a signed overflow while folding, which C++ leaves undefined and the
      model does not follow further. */
  datatype FoldResult = Folded(e: Expr) | NoFold | Crash

  datatype Compiled = Ok(e: Expr) | Failed

  function LiteralOf(v: int): Expr {
    if v >= 0 then Lit(v) else NegLit(-v)
  }

  /** The value try_fold computes for two non-negative literals. */
  function FoldValue(op: Binop, a: nat, b: nat): int
    requires b == 0 ==> !op.Div? && !op.Mod?
  {
    match op
    case Add => a + b
    case Sub => a - b
    case Mul => a * b
    case Div => a / b
    case Mod => a % b
    case Eq => if a == b then 1 else 0
    case Ne => if a != b then 1 else 0
    case Lt => if a < b then 1 else 0
    case Le => if a <= b then 1 else 0
    case Gt => if a > b then 1 else 0
    case Ge => if a >= b then 1 else 0
    case And => if a != 0 && b != 0 then 1 else 0
    case Or => if a != 0 || b != 0 then 1 else 0
  }

  function FoldNumbers(op: Binop, a: nat, b: nat): FoldResult {
    if a > MAX || b > MAX then Crash
    else if b == 0 && (op.Div? || op.Mod?) then NoFold
    else if FoldValue(op, a, b) <= MAX then Folded(LiteralOf(FoldValue(op, a, b)))
    else Crash
  }

  function TryFold(op: Binop, l: Expr, r: Expr): FoldResult {
    if l.Lit? && r.Lit? then FoldNumbers(op, l.n, r.n) else NoFold
  }

  function MakeBin(op: Binop, l: Expr, r: Expr): Compiled {
    match TryFold(op, l, r)
    case Folded(e) => Ok(e)
    case NoFold => Ok(Bin(op, l, r))
    case Crash => Failed
  }

  /** What the compiler makes of a source tree: every node folded as soon as it is built. */
  function Compile(t: Expr): Compiled
    decreases t, 1
  {
    match t
    case Var(_) => Ok(t)
    case Lit(_) => Ok(t)
    case NegLit(_) => Ok(t)
    case Paren(e) => MapOk(Compile(e), x => Paren(x))
    case Un(op, e) => MapOk(Compile(e), x => Un(op, x))
    case Bin(_, _, _) => CompileBin(t)
  }

  function CompileBin(t: Expr): Compiled
    requires t.Bin?
    decreases t, 0
  {
    match Compile(t.l)
    case Failed => Failed
    case Ok(x) =>
      match Compile(t.r)
      case Failed => Failed
      case Ok(y) => MakeBin(t.op, x, y)
  }

  function MapOk(c: Compiled, f: Expr -> Expr): Compiled {
    if c.Ok? then Ok(f(c.e)) else Failed
  }

  lemma {:induction false} Multiple(b: nat, q: nat)
    requires b != 0
    ensures q <= b * q
  {
    if b > 1 {
      Multiple(b - 1, q);
      assert b * q == (b - 1) * q + q;
    }
  }

  /** On non-negative operands truncation, `/` and `%` are the usual ones. */
  lemma DivisionFolds(a: nat, b: nat)
    requires b != 0 && a <= MAX
    ensures TruncDiv(a, b) == a / b && 0 <= a / b <= MAX
    ensures a - TruncDiv(a, b) * b == a % b && 0 <= a % b <= MAX
  {
    var q := a / b;
    assert a == b * q + a % b;
    Multiple(b, q);
  }

  lemma FoldKeepsValue(op: Binop, a: nat, b: nat, env: Env)
    ensures var f := FoldNumbers(op, a, b);
            (f.Folded? ==> Eval(f.e, env) == Eval(Bin(op, Lit(a), Lit(b)), env)) &&
            (f.Crash? ==> Eval(Lit(a), env).OutOfRange? || Eval(Lit(b), env).OutOfRange? ||
                          Eval(Bin(op, Lit(a), Lit(b)), env).OutOfRange?)
  {
    if a <= MAX && b <= MAX && !(b == 0 && (op.Div? || op.Mod?)) {
      if op.Div? || op.Mod? {
        DivisionFolds(a, b);
      }
      var v := FoldValue(op, a, b);
      assert -MAX <= v by {
        if op.Mul? { Multiple(if a == 0 then 1 else a, b); }
      }
      assert Eval(Lit(a), env) == Int(a) && Eval(Lit(b), env) == Int(b);
      assert Eval(LiteralOf(v), env) == InRange(v);
      FoldIsApply(op, a, b);
    }
  }

  lemma FoldIsApply(op: Binop, a: nat, b: nat)
    requires a <= MAX && b <= MAX && !(b == 0 && (op.Div? || op.Mod?))
    ensures Apply(op, a, b) == InRange(FoldValue(op, a, b))
    ensures Decides(op, a) ==> InRange(FoldValue(op, a, b)) == Truth(op == Or)
  {
    if op.Div? || op.Mod? {
      DivisionFolds(a, b);
    }
  }

  /** Folding preserves meaning: value, division by zero and overflow, in every environment. */
  lemma {:induction false} CompilePreserves(t: Expr, env: Env)
    requires Compile(t).Ok?
    ensures Eval(Compile(t).e, env) == Eval(t, env)
  {
    match t
    case Var(_) =>
    case Lit(_) =>
    case NegLit(_) =>
    case Paren(e) => CompilePreserves(e, env);
    case Un(_, e) => CompilePreserves(e, env);
    case Bin(op, l, r) =>
      CompilePreserves(l, env);
      CompilePreserves(r, env);
      assert CompileBin(t).Ok?;
      var x, y := Compile(l).e, Compile(r).e;
      if x.Lit? && y.Lit? {
        FoldKeepsValue(op, x.n, y.n, env);
      }
  }

  ghost predicate Within(s: Expr, t: Expr) {
    s == t ||
    match t
    case Var(_) => false
    case Lit(_) => false
    case NegLit(_) => false
    case Paren(e) => Within(s, e)
    case Un(_, e) => Within(s, e)
    case Bin(_, l, r) => Within(s, l) || Within(s, r)
  }

  /** The compiler fails on an expression only when a part of it overflows 64 bits in every
      environment. */
  lemma {:induction false} FailureIsOverflow(t: Expr) returns (part: Expr)
    requires Compile(t).Failed?
    ensures Within(part, t)
    ensures forall env: Env :: Eval(part, env).OutOfRange?
  {
    match t
    case Paren(e) => part := FailureIsOverflow(e);
    case Un(_, e) => part := FailureIsOverflow(e);
    case Bin(op, l, r) =>
      assert CompileBin(t).Failed?;
      if Compile(l).Failed? {
        part := FailureIsOverflow(l);
      } else if Compile(r).Failed? {
        part := FailureIsOverflow(r);
      } else {
        var a, b := Compile(l).e.n, Compile(r).e.n;
        part := if a > MAX then l else if b > MAX then r else t;
        forall env: Env ensures Eval(part, env).OutOfRange? {
          CompilePreserves(l, env);
          CompilePreserves(r, env);
          FoldKeepsValue(op, a, b, env);
        }
      }
  }
}
