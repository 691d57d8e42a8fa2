/** Integer expressions: their syntax, the text the compiler emits for them, and their value
    under ISO C11 section 6.5 on 64-bit integers. */
module Expressions {
  import opened Text
  import opened Words

  datatype Binop = Or | And | Eq | Ne | Lt | Le | Gt | Ge | Add | Sub | Mul | Div | Mod
  datatype Unop = Not | Neg

  /** `NegLit` is what folding leaves for a negative result: bare text such as `-1`, which the
      compiler no longer takes for a literal. Source trees do not contain it. */
  datatype Expr =
    | Var(name: string)
    | Lit(n: nat)
    | NegLit(n: nat)
    | Paren(e: Expr)
    | Un(uop: Unop, e: Expr)
    | Bin(op: Binop, l: Expr, r: Expr)

  // ---- Operators ----

  function Symbol(op: Binop): (s: string)
    ensures 1 <= |s| <= 2
  {
    match op
    case Or => "||" case And => "&&" case Eq => "==" case Ne => "!="
    case Lt => "<" case Le => "<=" case Gt => ">" case Ge => ">="
    case Add => "+" case Sub => "-" case Mul => "*" case Div => "/" case Mod => "%"
  }

  function UnSymbol(op: Unop): char {
    if op.Not? then '!' else '-'
  }

  function OpOfText(s: string): Option<Binop> {
    if |s| == 1 then
      match s[0]
      case '<' => Some(Lt) case '>' => Some(Gt) case '+' => Some(Add) case '-' => Some(Sub)
      case '*' => Some(Mul) case '/' => Some(Div) case '%' => Some(Mod) case _ => None
    else if |s| == 2 then
      if s[1] == '=' then
        match s[0]
        case '=' => Some(Eq) case '!' => Some(Ne) case '<' => Some(Le) case '>' => Some(Ge) case _ => None
      else if s[0] == '|' && s[1] == '|' then Some(Or)
      else if s[0] == '&' && s[1] == '&' then Some(And)
      else None
    else None
  }

  lemma OpOfSymbol(op: Binop)
    ensures OpOfText(Symbol(op)) == Some(op)
  {
  }

  lemma SymbolOfOp(s: string)
    requires OpOfText(s).Some?
    ensures Symbol(OpOfText(s).value) == s
  {
    assert s == if |s| == 1 then [s[0]] else [s[0], s[1]];
  }

  function Level(op: Binop): nat {
    match op
    case Or => 1
    case And => 2
    case Eq | Ne => 3
    case Lt | Le | Gt | Ge => 4
    case Add | Sub => 5
    case Mul | Div | Mod => 6
  }

  /** `binary_precedence`: 0 for anything that is not a binary operator. */
  function BinaryPrecedence(s: string): nat {
    match OpOfText(s)
    case Some(op) => Level(op)
    case None => 0
  }

  // ---- Decimal numerals ----

  function Digit(d: nat): char
    requires d < 10
  {
    ('0' as int + d) as char
  }

  function DigitValue(c: char): nat
    requires IsDigit(c)
  {
    c as int - '0' as int
  }

  /** `std::to_string` of a non-negative number. */
  function Decimal(n: nat): (s: string)
    ensures s != [] && forall c <- s :: IsDigit(c)
  {
    if n < 10 then [Digit(n)] else Decimal(n / 10) + [Digit(n % 10)]
  }

  predicate AllDigits(s: string) {
    forall c <- s :: IsDigit(c)
  }

  /** `std::stoll` of a string of digits, range aside. */
  function ValueOf(s: string): nat
    requires AllDigits(s)
  {
    if s == [] then 0
    else
      assert s[|s| - 1] in s;
      assert AllDigits(s[..|s| - 1]) by { assert forall c <- s[..|s| - 1] :: c in s; }
      10 * ValueOf(s[..|s| - 1]) + DigitValue(s[|s| - 1])
  }

  /** A literal of the fragment: digits without a leading zero. */
  predicate IsNumeral(s: string) {
    s != [] && AllDigits(s) && (s[0] == '0' ==> |s| == 1)
  }

  lemma {:induction false} ValueOfDecimal(n: nat)
    ensures AllDigits(Decimal(n)) && ValueOf(Decimal(n)) == n && IsNumeral(Decimal(n))
    ensures n > 0 ==> Decimal(n)[0] != '0'
  {
    if n >= 10 {
      ValueOfDecimal(n / 10);
      var s := Decimal(n);
      assert s[..|s| - 1] == Decimal(n / 10);
    }
  }

  lemma DigitOf(c: char)
    requires IsDigit(c)
    ensures DigitValue(c) < 10 && Digit(DigitValue(c)) == c && (DigitValue(c) == 0 <==> c == '0')
  {
  }

  lemma DecimalGrows(n: nat, d: nat)
    requires n > 0 && d < 10
    ensures Decimal(10 * n + d) == Decimal(n) + [Digit(d)]
  {
  }

  lemma {:induction false} DecimalOfValue(s: string)
    requires IsNumeral(s)
    ensures Decimal(ValueOf(s)) == s
    ensures s[0] != '0' ==> ValueOf(s) > 0
  {
    var init, last := s[..|s| - 1], s[|s| - 1];
    assert last in s && s[0] in s;
    assert forall c <- init :: c in s;
    DigitOf(last);
    assert s == init + [last];
    if init == [] {
      assert ValueOf(init) == 0;
    } else {
      DecimalOfValue(init);
      DecimalGrows(ValueOf(init), DigitValue(last));
    }
  }

  // ---- The emitted text ----

  /** What `unary_expr`, `parse_binary` and `try_fold` return as text. */
  function Print(e: Expr): string {
    match e
    case Var(name) => name
    case Lit(n) => Decimal(n)
    case NegLit(n) => "-" + Decimal(n)
    case Paren(e) => "(" + Print(e) + ")"
    case Un(op, e) => "(" + [UnSymbol(op)] + Print(e) + ")"
    case Bin(op, l, r) => "(" + Print(l) + " " + Symbol(op) + " " + Print(r) + ")"
  }

  // ---- Values ----

  /** The value of an expression, or why C gives it none. */
  datatype Value = Int(v: int) | DivisionByZero | OutOfRange

  type Env = string -> Int64

  function InRange(x: int): Value {
    if MIN <= x <= MAX then Int(x) else OutOfRange
  }

  function Truth(b: bool): Value {
    Int(if b then 1 else 0)
  }

  function Abs(x: int): nat {
    if x < 0 then -x else x
  }

  /** Division truncates toward zero (C11 section 6.5.5). */
  function TruncDiv(a: int, b: int): int
    requires b != 0
  {
    if (a < 0) == (b < 0) then Abs(a) / Abs(b) else -(Abs(a) / Abs(b))
  }

  function Apply(op: Binop, a: int, b: int): Value {
    match op
    case Or => Truth(a != 0 || b != 0)
    case And => Truth(a != 0 && b != 0)
    case Eq => Truth(a == b)
    case Ne => Truth(a != b)
    case Lt => Truth(a < b)
    case Le => Truth(a <= b)
    case Gt => Truth(a > b)
    case Ge => Truth(a >= b)
    case Add => InRange(a + b)
    case Sub => InRange(a - b)
    case Mul => InRange(a * b)
    case Div => if b == 0 then DivisionByZero else InRange(TruncDiv(a, b))
    case Mod =>
      if b == 0 then DivisionByZero
      else if InRange(TruncDiv(a, b)).OutOfRange? then OutOfRange
      else InRange(a - TruncDiv(a, b) * b)
  }

  /** `&&` and `||` stop at a left operand that decides them. */
  predicate Decides(op: Binop, a: int) {
    (op == And && a == 0) || (op == Or && a != 0)
  }

  function Eval(e: Expr, env: Env): (r: Value)
    ensures r.Int? ==> MIN <= r.v <= MAX
  {
    match e
    case Var(name) => Int(env(name))
    case Lit(n) => InRange(n)
    case NegLit(n) => if n <= MAX then Int(0 - n) else OutOfRange
    case Paren(e) => Eval(e, env)
    case Un(op, e) =>
      var x := Eval(e, env);
      if !x.Int? then x else if op.Not? then Truth(x.v == 0) else InRange(-x.v)
    case Bin(op, l, r) =>
      var x := Eval(l, env);
      if !x.Int? then x
      else if Decides(op, x.v) then Truth(op == Or)
      else
        var y := Eval(r, env);
        if !y.Int? then y else Apply(op, x.v, y.v)
  }
}
