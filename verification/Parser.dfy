/** The recursive-descent parser: a cursor over an `<eof>`-terminated token list, exceptions,
    and the declaration loop that recovers from them.

    Every method promises that the cursor stays on the list, never moves back, and moves
    forward when it succeeds; that is what makes the mutual recursion terminate. Expression
    methods also return the emitted text, which for expressions over integer names is that of
    `Climbing.Climb`, whatever else the program declares. The type tables are a parameter. */
module Parser {
  import opened Text
  import opened Lexer
  import opened Expressions
  import opened Fold
  import opened Climbing
  import opened TypeTables

  /** `Thrown` is the `runtime_error` the declaration loop catches; `Aborted` is what it does
      not: `stoll` out of range. It also stands for signed overflow while folding, behind which
      C++ promises nothing. */
  datatype Outcome<+T> = Done(value: T) | Thrown | Aborted {
    predicate IsFailure() {
      !Done?
    }

    function PropagateFailure<U>(): Outcome<U>
      requires IsFailure()
    {
      if Thrown? then Thrown else Aborted
    }

    function Extract(): T
      requires Done?
    {
      value
    }
  }

  /** Behind the last token that the specification `p` reads. */
  function Reach(p: Parsed): nat {
    match p
    case Parsed(_, next) => next
    case Crashed(at) => at
    case Rejected => 0
  }

  /** The specification `p` of a parse from `i` on stays in the fragment, and the names it reads
      are integer names. */
  ghost predicate Promised(types: Tables, toks: seq<Tok>, i: nat, p: Parsed) {
    types.Valid() && !p.Rejected? && IntegerNames(types, toks, i, Reach(p))
  }

  /** The outcome `r` at cursor `j` is what `p` says. */
  ghost predicate Agrees(types: Tables, p: Parsed, r: Outcome<string>, j: nat) {
    match p
    case Parsed(e, next) => r == Done(Print(e)) && j == next && IsInteger(types, e)
    case Crashed(_) => r.Aborted?
    case Rejected => true
  }

  /** The contract of the expression methods: `r` at `j` is what `p`, a parse from `i`, promises. */
  ghost predicate Keeps(types: Tables, toks: seq<Tok>, i: nat, p: Parsed, r: Outcome<string>, j: nat) {
    Promised(types, toks, i, p) ==> Agrees(types, p, r, j)
  }

  predicate IsIntLiteral(s: string) {
    s != [] && AllDigits(s)
  }

  datatype TextFold = Text(text: string) | NotFolded | OutOfRangeFold

  /** `try_fold` on texts. */
  function FoldText(left: string, op: Binop, right: string): TextFold {
    if IsIntLiteral(left) && IsIntLiteral(right) then
      match FoldNumbers(op, ValueOf(left), ValueOf(right))
      case Folded(e) => Text(Print(e))
      case NoFold => NotFolded
      case Crash => OutOfRangeFold
    else NotFolded
  }

  lemma OnlyLiteralsPrintDigits(types: Tables, e: Expr)
    requires IsInteger(types, e)
    ensures IsIntLiteral(Print(e)) <==> e.Lit?
    ensures e.Lit? ==> ValueOf(Print(e)) == e.n
  {
    if e.Lit? {
      ValueOfDecimal(e.n);
    } else {
      assert Print(e) != [] ==> Print(e)[0] in Print(e);
    }
  }

  lemma FoldTextAgrees(types: Tables, op: Binop, l: Expr, r: Expr)
    requires IsInteger(types, l) && IsInteger(types, r)
    ensures FoldText(Print(l), op, Print(r)) ==
            match TryFold(op, l, r)
            case Folded(e) => Text(Print(e))
            case NoFold => NotFolded
            case Crash => OutOfRangeFold
  {
    OnlyLiteralsPrintDigits(types, l);
    OnlyLiteralsPrintDigits(types, r);
  }

  /** The text of a node over integers is that of the folded node. */
  lemma NodeFolds(types: Tables, op: Binop, l: Expr, r: Expr)
    requires types.Valid() && IsInteger(types, l) && IsInteger(types, r)
    ensures NodeText(types, Print(l), op, Print(r)) ==
            match MakeBin(op, l, r)
            case Ok(e) => Done(Print(e))
            case Failed => Aborted
    ensures MakeBin(op, l, r).Ok? ==> IsInteger(types, MakeBin(op, l, r).e)
  {
    FoldTextAgrees(types, op, l, r);
    IntegersAreNoStrings(types, l);
    IntegersAreNoStrings(types, r);
  }

  lemma OperatorToken(s: string)
    requires 0 < BinaryPrecedence(s)
    ensures s != "<eof>" && OpOfText(s).Some?
    ensures Classify(s) == Op(OpOfText(s).value) && BinaryPrecedence(s) == Level(OpOfText(s).value)
  {
    ClassifyOperator(s);
    ClassifyFixed(s);
  }

  /** The text of one binary node: a string comparison, a folded literal, or parentheses. */
  function NodeText(types: Tables, left: string, op: Binop, right: string): Outcome<string> {
    if (op.Eq? || op.Ne?) && (IsString(types, left) || IsString(types, right)) then
      Done("(text_cmp(" + left + ", " + right + ") " + Symbol(op) + " 0)")
    else
      match FoldText(left, op, right)
      case Text(s) => Done(s)
      case NotFolded => Done("(" + left + " " + Symbol(op) + " " + right + ")")
      case OutOfRangeFold => Aborted
  }

  /** The loop of `ParseBinary` at cursor `i` seen from its specification: the text so far is
      that of `e`. */
  ghost predicate Tracks(types: Tables, e: Expr, left: string, spec: Parsed, toks: seq<Tok>, i: nat, min: nat)
    requires i <= |toks|
  {
    left == Print(e) && IsInteger(types, e) && spec == Loop(e, toks, i, min)
  }

  /** One turn of the loop, from the operator at `i`: the tree it leads to. */
  lemma TurnTracks(types: Tables, e: Expr, left: string, spec: Parsed, toks: seq<Tok>, start: nat, i: nat, min: nat,
                   op: Binop, right: Outcome<string>, j: nat) returns (next: Expr)
    requires start <= i < |toks| && j <= |toks| && toks[i] == Op(op) && min <= Level(op)
    requires Promised(types, toks, start, spec) && Tracks(types, e, left, spec, toks, i, min)
    requires Keeps(types, toks, i + 1, Climb(toks, i + 1, Level(op) + 1), right, j)
    ensures right.Done? ==>
              var r := NodeText(types, left, op, right.value);
              if r.Done? then Tracks(types, next, r.value, spec, toks, j, min) else Agrees(types, spec, r, j)
    ensures !right.Done? ==> Agrees(types, spec, right, j)
  {
    var p := Climb(toks, i + 1, Level(op) + 1);
    next := e;
    if p.Parsed? {
      var made := MakeBin(op, e, p.e);
      RightPromised(types, toks, start, i + 1, p, spec);
      NodeFolds(types, op, e, p.e);
      next := if made.Ok? then made.e else e;
    }
  }

  lemma RightPromised(types: Tables, toks: seq<Tok>, start: nat, i: nat, p: Parsed, spec: Parsed)
    requires start <= i && Promised(types, toks, start, spec) && !p.Rejected? && Reach(p) <= Reach(spec)
    ensures Promised(types, toks, i, p)
  {
  }

  lemma NameKeeps(types: Tables, toks: seq<Tok>, i: nat, name: string, joined: bool, r: Outcome<string>, j: nat)
    requires i < |toks| && (toks[i] == Name(name) || toks[i] == Other) && (toks[i].Name? ==> IsName(name))
    requires joined ==> At(toks, i + 1).Joiner?
    requires !joined && !types.isVariant(name) ==> r == Done(name) && j == i + 1
    ensures Keeps(types, toks, i, Unary(toks, i), r, j)
  {
  }

  lemma PrefixToken(s: string)
    requires s == "!" || s == "-" || s == "*" || s == "&"
    ensures s != "<eof>" && (Classify(s) == Bang ==> s == "!") && (Classify(s) == Op(Sub) ==> s == "-")
    ensures Classify(s) == Bang || Classify(s) == Op(Sub) || Classify(s) == Op(Mul) || Classify(s) == Other
  {
    ClassifyFixed(s);
  }

  lemma PrefixKeeps(types: Tables, op: string, toks: seq<Tok>, i: nat, operand: Outcome<string>, j: nat)
    requires i < |toks| && (toks[i] == Bang ==> op == "!") && (toks[i] == Op(Sub) ==> op == "-")
    requires toks[i] == Bang || toks[i] == Op(Sub) || toks[i] == Op(Mul) || toks[i] == Other
    requires Keeps(types, toks, i + 1, Operand(toks, i + 1), operand, j)
    ensures Keeps(types, toks, i, Unary(toks, i),
                  if operand.Done? then Done("(" + op + operand.value + ")") else operand, j)
  {
  }

  class Parser {
    const tokens: seq<Token>
    ghost const toks: seq<Tok>
    var index: nat
    var types: Tables
    var diagnostics: nat

    ghost predicate Valid()
      reads this
    {
      && index < |tokens| && tokens[|tokens| - 1].text == "<eof>"
      && |toks| == |tokens|
      && (forall i :: 0 <= i < |tokens| ==> toks[i] == Classify(tokens[i].text))
      && types.Valid()
    }

    /** The cursor is on the list, has not moved back, and has moved forward on success; nothing
        has been reported. */
    twostate predicate Moved(done: bool)
      reads this
    {
      Valid() && old(index) <= index && (done ==> old(index) < index) && diagnostics == old(diagnostics)
    }

    constructor (tokens: seq<Token>, types: Tables)
      requires tokens != [] && tokens[|tokens| - 1].text == "<eof>" && types.Valid()
      ensures Valid() && index == 0 && diagnostics == 0 && this.tokens == tokens && this.types == types
    {
      this.tokens := tokens;
      this.toks := seq(|tokens|, i requires 0 <= i < |tokens| => Classify(tokens[i].text));
      this.index := 0;
      this.types := types;
      this.diagnostics := 0;
    }

    function Peek(): string
      requires Valid()
      reads this
    {
      tokens[index].text
    }

    method Take() returns (r: Outcome<string>)
      requires Valid()
      modifies this
      ensures Moved(r.Done?) && types == old(types)
      ensures r.Done? <==> old(Peek()) != "<eof>"
      ensures r.Done? ==> r.value == old(Peek()) && index == old(index) + 1
      ensures !r.Done? ==> r.Thrown? && index == old(index)
    {
      if Peek() == "<eof>" {
        return Thrown;
      }
      index := index + 1;
      return Done(tokens[index - 1].text);
    }

    method Expect(value: string) returns (r: Outcome<()>)
      requires Valid() && value != "<eof>"
      modifies this
      ensures Moved(r.Done?) && types == old(types)
      ensures r.Done? <==> old(Peek()) == value
      ensures r.Done? ==> index == old(index) + 1
      ensures !r.Done? ==> r.Thrown? && index == old(index)
    {
      if Peek() != value {
        return Thrown;
      }
      index := index + 1;
      return Done(());
    }

    // ---- Expressions ----

    /** `take` where the token is known not to be `<eof>`. */
    method Skip() returns (text: string)
      requires Valid() && Peek() != "<eof>"
      modifies this
      ensures Moved(true) && types == old(types)
      ensures text == old(Peek()) && index == old(index) + 1
    {
      index := index + 1;
      return tokens[index - 1].text;
    }

    method UnaryExpr(end: string) returns (r: Outcome<string>)
      requires Valid()
      modifies this
      ensures Moved(r.Done?) && types == old(types)
      ensures Keeps(types, toks, old(index), Unary(toks, old(index)), r, index)
      decreases |tokens| - index, 2
    {
      ClassifyFixed(Peek());
      if Peek() != "" {
        ClassifyAtom(Peek());
      }
      if Peek() == "!" || Peek() == "-" || Peek() == "*" || Peek() == "&" {
        r := PrefixExpr(end);
      } else if Peek() == "(" {
        r := ParenExpr();
      } else if Peek() == "[" {
        r := ArrayExpr();
      } else if Peek() == "true" || Peek() == "false" {
        r := Take();
      } else if Peek() == "asm" {
        r := AsmInline();
      } else {
        r := AtomExpr();
      }
    }

    method PrefixExpr(end: string) returns (r: Outcome<string>)
      requires Valid() && (Peek() == "!" || Peek() == "-" || Peek() == "*" || Peek() == "&")
      modifies this
      ensures Moved(r.Done?) && types == old(types)
      ensures Keeps(types, toks, old(index), Unary(toks, old(index)), r, index)
      decreases |tokens| - index, 1
    {
      PrefixToken(Peek());
      var op := Skip();
      var operand := OperandExpr(end);
      PrefixKeeps(types, op, toks, old(index), operand, index);
      if operand.IsFailure() {
        return operand;
      }
      return Done("(" + op + operand.value + ")");
    }

    method ParenExpr() returns (r: Outcome<string>)
      requires Valid() && Peek() == "("
      modifies this
      ensures Moved(r.Done?) && types == old(types)
      ensures Keeps(types, toks, old(index), Unary(toks, old(index)), r, index)
      decreases |tokens| - index, 1
    {
      ClassifyFixed(Peek());
      var _ := Skip();
      var inner :- Expression(")");
      ClassifyFixed(Peek());
      var _ :- Expect(")");
      return Done("(" + inner + ")");
    }

    method ArrayExpr() returns (r: Outcome<string>)
      requires Valid() && Peek() == "["
      modifies this
      ensures Moved(r.Done?) && types == old(types)
      decreases |tokens| - index, 1
    {
      var _ := Skip();
      var elems := "";
      if Peek() != "]" {
        elems :- ExpressionList("]");
      }
      var _ :- Expect("]");
      return Done("{" + elems + "}");
    }

    /** Names, numbers and strings. A `null` token is a name by the time its own branch is
        reached, so that branch is dead. */
    method AtomExpr() returns (r: Outcome<string>)
      requires Valid() && Peek() != "!" && Peek() != "-" && Peek() != "("
      modifies this
      ensures Moved(r.Done?) && types == old(types)
      ensures Keeps(types, toks, old(index), Unary(toks, old(index)), r, index)
      decreases |tokens| - index, 1
    {
      var next := Peek();
      ClassifyFixed(next);
      if next != "" {
        ClassifyAtom(next);
      }
      if next != "" && IsWordStart(next[0]) {
        r := NameExpr();
      } else if next != "" && (IsDigit(next[0]) || next[0] == '"') {
        if IsNumeral(next) {
          DecimalOfValue(next);
        }
        r := Take();
      } else {
        r := Thrown;
      }
    }

    method NameExpr() returns (r: Outcome<string>)
      requires Valid() && Peek() != "" && IsWordStart(Peek()[0])
      modifies this
      ensures Moved(r.Done?) && types == old(types)
      ensures Keeps(types, toks, old(index), Unary(toks, old(index)), r, index)
      decreases |tokens| - index, 0
    {
      ClassifyAtom(Peek());
      var name := Skip();
      ClassifyFixed(Peek());
      ghost var joined := Peek() == "::" || Peek() == "{";
      r := NameText(name);
      NameKeeps(types, toks, old(index), name, joined, r, index);
    }

    /** Behind a name. */
    method NameText(name: string) returns (r: Outcome<string>)
      requires Valid()
      modifies this
      ensures Moved(false) && types == old(types)
      ensures !(old(Peek()) == "::" || old(Peek()) == "{") && !types.isVariant(name) ==>
                r == Done(name) && index == old(index)
      decreases |tokens| - index, 10
    {
      if Peek() == "::" {
        var _ := Skip();
        var variant :- Take();
        return Done(types.variant(name, variant));
      }
      if Peek() == "{" {
        r := StructLiteral(name);
        return;
      }
      if types.isVariant(name) {
        return Done(types.variant("", name));
      }
      return Done(name);
    }

    method StructLiteral(typeName: string) returns (r: Outcome<string>)
      requires Valid()
      modifies this
      ensures Moved(r.Done?) && types == old(types)
      decreases |tokens| - index, 9
    {
      var _ :- Expect("{");
      var result := "(" + typeName + "){";
      var first := true;
      while Peek() != "}"
        invariant Moved(true) && types == old(types)
        decreases |tokens| - index
      {
        if !first {
          result := result + ", ";
        }
        first := false;
        var fname :- Take();
        var _ :- Expect(":");
        var fval :- Expression("}");
        result := result + "." + fname + " = " + fval;
        if Peek() == "," {
          var _ := Skip();
        }
      }
      var _ := Skip();
      return Done(result + "}");
    }

    method AsmInline() returns (r: Outcome<string>)
      requires Valid() && Peek() == "asm"
      modifies this
      ensures Moved(r.Done?) && types == old(types)
    {
      var _ := Skip();
      var result := "({";
      if Peek() == "{" {
        var _ := Skip();
        var body :- AsmBody();
        result := result + body;
      } else {
        var word :- Take();
        result := result + word;
        if Peek() == ";" {
          var _ := Skip();
        }
      }
      return Done(result + "; 0;})");
    }

    /** The words of an `asm` block, joined by spaces, up to and including the closing brace. */
    method AsmBody() returns (r: Outcome<string>)
      requires Valid()
      modifies this
      ensures Moved(r.Done?) && types == old(types)
    {
      var result := "";
      var first := true;
      while Peek() != "}"
        invariant Moved(false) && types == old(types)
        decreases |tokens| - index
      {
        if !first {
          result := result + " ";
        }
        first := false;
        var word :- Take();
        result := result + word;
        if Peek() == ";" {
          var _ := Skip();
        }
      }
      var _ := Skip();
      return Done(result);
    }

    method Postfix(start: string) returns (r: Outcome<string>)
      requires Valid()
      modifies this
      ensures Moved(false) && types == old(types)
      ensures !(old(Peek()) == "(" || old(Peek()) == "." || old(Peek()) == "[") ==>
                r == Done(start) && index == old(index)
      decreases |tokens| - index, 8
    {
      var val := start;
      while Peek() == "(" || Peek() == "." || Peek() == "["
        invariant Moved(false) && types == old(types)
        invariant index == old(index) ==> val == start
        invariant !(old(Peek()) == "(" || old(Peek()) == "." || old(Peek()) == "[") ==> index == old(index)
        decreases |tokens| - index
      {
        val :- PostfixOne(val);
      }
      return Done(val);
    }

    method PostfixOne(val: string) returns (r: Outcome<string>)
      requires Valid() && (Peek() == "(" || Peek() == "." || Peek() == "[")
      modifies this
      ensures Moved(r.Done?) && types == old(types)
      decreases |tokens| - index, 7
    {
      if Peek() == "(" {
        var _ := Skip();
        var args := "";
        if Peek() != ")" {
          args :- ExpressionList(")");
        }
        var _ :- Expect(")");
        return Done(CallText(val, args));
      } else if Peek() == "." {
        var _ := Skip();
        var field :- Take();
        return Done("(" + val + ")." + field);
      } else {
        var _ := Skip();
        var idx :- Expression("]");
        var _ :- Expect("]");
        return Done("(" + val + ")[" + idx + "]");
      }
    }

    function CallText(val: string, args: string): string
      reads this
    {
      if val == "println" then
        if IsString(types, args) then "puts(" + args + ")"
        else if types.isFloat(args) then "printf(\"%g\\n\", (double)(" + args + "))"
        else "printf(\"%lld\\n\", (long long)(" + args + "))"
      else if val == "print" then
        if IsString(types, args) then "printf(\"%s\", " + args + ")"
        else if types.isFloat(args) then "printf(\"%g\", (double)(" + args + "))"
        else "printf(\"%lld\", (long long)(" + args + "))"
      else if val == "syscall" then "syscall_h(" + args + ")"
      else val + "(" + args + ")"
    }

    method ExpressionList(end: string) returns (r: Outcome<string>)
      requires Valid()
      modifies this
      ensures Moved(r.Done?) && types == old(types)
      decreases |tokens| - index, 6
    {
      var result :- Expression(end);
      while Peek() == ","
        invariant Moved(true) && types == old(types)
        decreases |tokens| - index
      {
        var _ := Skip();
        if Peek() == end {
          break;
        }
        var more :- Expression(end);
        result := result + ", " + more;
      }
      return Done(result);
    }

    method Expression(end: string) returns (r: Outcome<string>)
      requires Valid()
      modifies this
      ensures Moved(r.Done?) && types == old(types)
      ensures end != "=" ==> Keeps(types, toks, old(index), Climb(toks, old(index), 0), r, index)
      decreases |tokens| - index, 5
    {
      r := ParseBinary(0, end);
    }

    /** Lines 1009-1018. */
    method BinaryText(left: string, op: string, right: string) returns (r: Outcome<string>)
      requires OpOfText(op).Some?
      ensures r == NodeText(types, left, OpOfText(op).value, right)
    {
      SymbolOfOp(op);
      if (op == "==" || op == "!=") && (IsString(types, left) || IsString(types, right)) {
        return Done("(text_cmp(" + left + ", " + right + ") " + (if op == "==" then "==" else "!=") + " 0)");
      }
      match FoldText(left, OpOfText(op).value, right)
      case OutOfRangeFold => return Aborted;
      case Text(s) => return Done(s);
      case NotFolded => return Done("(" + left + " " + op + " " + right + ")");
    }

    /** `postfix(unary_expr(end))`. */
    method OperandExpr(end: string) returns (r: Outcome<string>)
      requires Valid()
      modifies this
      ensures Moved(r.Done?) && types == old(types)
      ensures Keeps(types, toks, old(index), Operand(toks, old(index)), r, index)
      decreases |tokens| - index, 3
    {
      var operand :- UnaryExpr(end);
      ClassifyFixed(Peek());
      r := Postfix(operand);
    }

    method ParseBinary(min: nat, end: string) returns (r: Outcome<string>)
      requires Valid()
      modifies this
      ensures Moved(r.Done?) && types == old(types)
      ensures end != "=" ==> Keeps(types, toks, old(index), Climb(toks, old(index), min), r, index)
      decreases |tokens| - index, 4
    {
      ghost var start, spec := index, Climb(toks, index, min);
      var left :- OperandExpr(end);
      ghost var operand := Operand(toks, start);
      ghost var e := if operand.Parsed? then operand.e else Lit(0);
      while BinaryPrecedence(Peek()) > 0
        invariant Moved(true) && types == old(types)
        invariant end != "=" && Promised(types, toks, start, spec) ==> Tracks(types, e, left, spec, toks, index, min)
        decreases |tokens| - index
      {
        if BinaryPrecedence(Peek()) < min {
          break;
        }
        var turn;
        turn, e := BinaryTurn(left, end, min, start, e, spec);
        left :- turn;
      }
      ClassifyOperator(Peek());
      ClassifyFixed(Peek());
      if Peek() == "=" && end != "=" {
        var _ := Skip();
        var rhs :- Expression(end);
        left := "(" + left + " = " + rhs + ")";
      }
      return Done(left);
    }

    /** One turn of the loop of lines 995-1019. */
    method BinaryTurn(left: string, end: string, min: nat, ghost start: nat, ghost e: Expr, ghost spec: Parsed)
      returns (r: Outcome<string>, ghost next: Expr)
      requires Valid() && 0 < BinaryPrecedence(Peek()) && min <= BinaryPrecedence(Peek()) && start <= index
      requires end != "=" && Promised(types, toks, start, spec) ==> Tracks(types, e, left, spec, toks, index, min)
      modifies this
      ensures Moved(r.Done?) && types == old(types)
      ensures end != "=" && Promised(types, toks, start, spec) ==>
                if r.Done? then Tracks(types, next, r.value, spec, toks, index, min) else Agrees(types, spec, r, index)
      decreases |tokens| - index, 4
    {
      OperatorToken(Peek());
      var prec := BinaryPrecedence(Peek());
      var op := Skip();
      var right := ParseBinary(prec + 1, end);
      next := e;
      if end != "=" && Promised(types, toks, start, spec) {
        next := TurnTracks(types, e, left, spec, toks, start, old(index), min, OpOfText(op).value, right, index);
      }
      if right.IsFailure() {
        return right.PropagateFailure(), next;
      }
      r := BinaryText(left, op, right.value);
    }

    // ---- Types and statements ----

    method TypeName() returns (r: Outcome<string>)
      requires Valid()
      modifies this
      ensures Moved(r.Done?)
      decreases |tokens| - index
    {
      if Peek() == "*" {
        var _ := Skip();
        var base :- TypeName();
        return Done("*" + base);
      }
      if Peek() == "[" {
        var _ := Skip();
        var elem :- Take();
        var _ :- Expect(";");
        var size :- Take();
        var _ :- Expect("]");
        return Done("[" + elem + ";" + size + "]");
      }
      r := Take();
    }

    /** `bind_type` and the scope changes around blocks: the tables become anything. */
    method BindType()
      requires Valid()
      modifies this`types
      ensures Valid()
    {
      var later: Tables := *;
      if later.Valid() {
        types := later;
      }
    }

    method OptionalType() returns (r: Outcome<()>)
      requires Valid()
      modifies this
      ensures Moved(false)
    {
      if Peek() == ":" {
        var _ := Skip();
        var _ :- TypeName();
      }
      return Done(());
    }

    method Statement() returns (r: Outcome<()>)
      requires Valid()
      modifies this
      ensures Moved(r.Done?)
      decreases |tokens| - index, 11
    {
      if Peek() == "let" || Peek() == "var" {
        r := LetStatement();
      } else if Peek() == "return" {
        r := ReturnStatement();
      } else if Peek() == "if" {
        r := IfStatement();
      } else if Peek() == "while" || Peek() == "until" {
        r := LoopStatement();
      } else if Peek() == "for" {
        r := ForStatement();
      } else if Peek() == "do" {
        r := DoStatement();
      } else if Peek() == "switch" {
        r := SwitchStatement();
      } else if Peek() == "asm" {
        r := AsmStatement();
      } else if Peek() == "break" || Peek() == "continue" {
        var _ := Skip();
        r := Expect(";");
      } else {
        var _ :- Expression(";");
        r := Expect(";");
      }
    }

    method LetStatement() returns (r: Outcome<()>)
      requires Valid() && (Peek() == "let" || Peek() == "var")
      modifies this
      ensures Moved(r.Done?)
      decreases |tokens| - index, 10
    {
      var _ := Skip();
      var _ :- Take();
      var _ :- OptionalType();
      var _ :- Expect("=");
      var _ :- Expression(";");
      var _ :- Expect(";");
      BindType();
      return Done(());
    }

    method ReturnStatement() returns (r: Outcome<()>)
      requires Valid() && Peek() == "return"
      modifies this
      ensures Moved(r.Done?)
      decreases |tokens| - index, 10
    {
      var _ := Skip();
      if Peek() == ";" {
        var _ := Skip();
        return Done(());
      }
      var _ :- Expression(";");
      r := Expect(";");
    }

    /** `( expression )`, as `if`, `while`, `until` and `do` have it. */
    method Condition() returns (r: Outcome<string>)
      requires Valid()
      modifies this
      ensures Moved(r.Done?)
      decreases |tokens| - index, 9
    {
      var _ :- Expect("(");
      var cond :- Expression(")");
      var _ :- Expect(")");
      return Done(cond);
    }

    method IfStatement() returns (r: Outcome<()>)
      requires Valid() && Peek() == "if"
      modifies this
      ensures Moved(r.Done?)
      decreases |tokens| - index, 10
    {
      var _ := Skip();
      var _ :- Condition();
      var _ :- Block();
      if Peek() == "else" {
        var _ := Skip();
        if Peek() == "if" {
          var _ :- Statement();
        } else {
          var _ :- Block();
        }
      }
      return Done(());
    }

    method LoopStatement() returns (r: Outcome<()>)
      requires Valid() && (Peek() == "while" || Peek() == "until")
      modifies this
      ensures Moved(r.Done?)
      decreases |tokens| - index, 10
    {
      var _ := Skip();
      var _ :- Condition();
      r := Block();
    }

    method ForStatement() returns (r: Outcome<()>)
      requires Valid() && Peek() == "for"
      modifies this
      ensures Moved(r.Done?)
      decreases |tokens| - index, 10
    {
      var _ := Skip();
      var _ :- Expect("(");
      var _ :- ForStart();
      var _ :- Expression(")");
      var _ :- Expect(")");
      r := Block();
    }

    /** The header of a `for` up to its last expression. */
    method ForStart() returns (r: Outcome<()>)
      requires Valid()
      modifies this
      ensures Moved(false)
      decreases |tokens| - index, 9
    {
      if Peek() == "let" || Peek() == "var" {
        var _ := Skip();
        var _ :- Take();
        var _ :- OptionalType();
        var _ :- Expect("=");
        var _ :- Expression(";");
        var _ :- Expect(";");
        var _ :- Expression(";");
        var _ :- Expect(";");
      } else if Peek() == ";" {
        var _ := Skip();
        var _ :- Expression(";");
        var _ :- Expect(";");
      }
      return Done(());
    }

    method DoStatement() returns (r: Outcome<()>)
      requires Valid() && Peek() == "do"
      modifies this
      ensures Moved(r.Done?)
      decreases |tokens| - index, 10
    {
      var _ := Skip();
      var _ :- Block();
      var _ :- Expect("while");
      var _ :- Condition();
      r := Expect(";");
    }

    method SwitchStatement() returns (r: Outcome<()>)
      requires Valid() && Peek() == "switch"
      modifies this
      ensures Moved(r.Done?)
      decreases |tokens| - index, 10
    {
      var _ := Skip();
      var _ :- Condition();
      var _ :- Expect("{");
      while Peek() != "}"
        invariant Moved(true)
        decreases |tokens| - index
      {
        if Peek() == "case" {
          var _ := Skip();
          var _ :- Expression(":");
          var _ :- Expect(":");
        } else if Peek() == "default" {
          var _ := Skip();
          var _ :- Expect(":");
        } else {
          var _ :- Statement();
        }
      }
      var _ := Skip();
      return Done(());
    }

    method AsmStatement() returns (r: Outcome<()>)
      requires Valid() && Peek() == "asm"
      modifies this
      ensures Moved(r.Done?)
    {
      var _ := Skip();
      if Peek() == "{" {
        var _ := Skip();
        var _ :- AsmBody();
        return Done(());
      }
      var _ :- Take();
      r := Expect(";");
    }

    method Block() returns (r: Outcome<()>)
      requires Valid()
      modifies this
      ensures Moved(r.Done?)
      decreases |tokens| - index, 13
    {
      var _ :- Expect("{");
      var _ :- BlockInner();
      var _ := Skip();
      return Done(());
    }

    method BlockInner() returns (r: Outcome<()>)
      requires Valid()
      modifies this
      ensures Moved(false) && (r.Done? ==> Peek() == "}")
      decreases |tokens| - index, 12
    {
      BindType();
      while Peek() != "}"
        invariant Moved(false)
        decreases |tokens| - index
      {
        var _ :- Statement();
      }
      return Done(());
    }

    // ---- Declarations ----

    method Structure() returns (r: Outcome<()>)
      requires Valid() && Peek() == "struct"
      modifies this
      ensures Moved(true)
    {
      var _ := Skip();
      var _ :- Take();
      var _ :- Expect("{");
      while Peek() != "}"
        invariant Moved(true)
        decreases |tokens| - index
      {
        var _ :- Take();
        var _ :- Expect(":");
        var _ :- TypeName();
        var _ :- Expect(";");
      }
      var _ := Skip();
      if Peek() == ";" {
        var _ := Skip();
      }
      return Done(());
    }

    method ParseEnum() returns (r: Outcome<()>)
      requires Valid() && Peek() == "enum"
      modifies this
      ensures Moved(true)
    {
      var _ := Skip();
      var _ :- Take();
      var _ :- Expect("{");
      while Peek() != "}"
        invariant Moved(true)
        decreases |tokens| - index
      {
        var _ :- Take();
        if Peek() == "," {
          var _ := Skip();
        }
      }
      var _ := Skip();
      if Peek() == ";" {
        var _ := Skip();
      }
      return Done(());
    }

    method Attributes() returns (r: Outcome<()>)
      requires Valid()
      modifies this
      ensures Moved(false)
      ensures old(Peek()) == "#[" ==> old(index) < index
      ensures old(Peek()) != "#[" ==> index == old(index) && r.Done?
    {
      while Peek() == "#["
        invariant Moved(false)
        invariant old(Peek()) == "#[" ==> old(index) < index || Peek() == "#["
        invariant old(Peek()) != "#[" ==> index == old(index)
        decreases |tokens| - index
      {
        var _ := Skip();
        var _ :- Take();
        var _ :- Expect("]");
      }
      return Done(());
    }

    /** A function that is not there throws without moving the cursor. */
    method Function() returns (r: Outcome<()>)
      requires Valid()
      modifies this
      ensures Moved(r.Done?)
      ensures old(Peek()) == "fn" || old(Peek()) == "#[" ==> old(index) < index
      ensures !(old(Peek()) == "fn" || old(Peek()) == "#[") ==> r.Thrown? && index == old(index)
    {
      var _ :- Attributes();
      var _ :- Expect("fn");
      var _ :- Take();
      var _ :- Expect("(");
      if Peek() != ")" {
        var _ :- Parameters();
      }
      var _ :- Expect(")");
      if Peek() == "->" {
        var _ := Skip();
        var _ :- TypeName();
      }
      r := Block();
    }

    method Parameters() returns (r: Outcome<()>)
      requires Valid()
      modifies this
      ensures Moved(r.Done?)
    {
      var more := true;
      while more
        invariant Moved(false) && (!more ==> old(index) < index)
        decreases |tokens| - index, more
      {
        var _ :- Take();
        var _ :- OptionalType();
        BindType();
        more := Peek() == ",";
        if more {
          var _ := Skip();
        }
      }
      return Done(());
    }

    predicate IsStop(s: string) {
      s == "struct" || s == "enum" || s == "fn" || s == "import" || s == "<eof>"
    }

    /** Stops at the first declaration keyword, or at the end. */
    method SkipToDecl()
      requires Valid()
      modifies this
      ensures Moved(false) && IsStop(Peek())
      ensures forall k :: old(index) <= k < index ==> !IsStop(tokens[k].text)
    {
      while Peek() != "<eof>"
        invariant Moved(false)
        invariant forall k :: old(index) <= k < index ==> !IsStop(tokens[k].text)
        decreases |tokens| - index
      {
        if Peek() == "struct" || Peek() == "enum" || Peek() == "fn" || Peek() == "import" {
          return;
        }
        index := index + 1;
      }
    }

    /** One turn of the loop of lines 295-304. It consumes a token exactly when the next one is
        not `import`: there `skip_to_decl` stops where it started. Where nothing starts that could
        be a declaration, the turn ends at the next place where recovery stops. */
    method DeclarationTurn() returns (r: Outcome<()>)
      requires Valid() && Peek() != "<eof>"
      modifies this
      ensures Valid() && old(index) <= index
      ensures old(index) < index <==> old(Peek()) != "import"
      ensures old(Peek()) == "import" ==> r.Thrown?
      ensures r.Thrown? ==> IsStop(Peek()) && diagnostics == old(diagnostics) + 1
      ensures !r.Thrown? ==> diagnostics == old(diagnostics)
      ensures !(old(Peek()) == "struct" || old(Peek()) == "enum" || old(Peek()) == "fn" || old(Peek()) == "#[") ==>
                r.Thrown? && forall k :: old(index) <= k < index ==> !IsStop(tokens[k].text)
    {
      if Peek() == "struct" {
        r := Structure();
      } else if Peek() == "enum" {
        r := ParseEnum();
      } else {
        r := Function();
      }
      if r.Thrown? {
        diagnostics := diagnostics + 1;
        SkipToDecl();
      }
    }

    /** The loop, up to where it ends: at the end of the file, where folding aborts, or before a
        turn that starts at `import`. That last turn and all later ones change nothing but the
        number of errors, so there the loop of the compiler does not end. At most one error is
        reported for each token consumed. */
    method DeclarationLoop() returns (end: LoopEnd)
      requires Valid()
      modifies this
      ensures Valid() && old(index) <= index
      ensures end.AtEnd? <==> !end.Abort? && Peek() == "<eof>"
      ensures end.AtImport? <==> !end.Abort? && Peek() == "import"
      ensures old(diagnostics) <= diagnostics <= old(diagnostics) + (index - old(index))
    {
      while Peek() != "<eof>" && Peek() != "import"
        invariant Valid() && old(index) <= index
        invariant old(diagnostics) <= diagnostics <= old(diagnostics) + (index - old(index))
        decreases |tokens| - index
      {
        var r := DeclarationTurn();
        if r.Aborted? {
          return Abort;
        }
      }
      return if Peek() == "<eof>" then AtEnd else AtImport;
    }

    /** However many turns the compiler makes at `import`, it stays there. */
    method TurnsAtImport(n: nat)
      requires Valid() && Peek() == "import"
      modifies this
      ensures Valid() && index == old(index) && diagnostics == old(diagnostics) + n
    {
      for i := 0 to n
        invariant Valid() && index == old(index) && diagnostics == old(diagnostics) + i
      {
        var _ := DeclarationTurn();
      }
    }

    /** An import stands at `i`. */
    predicate ImportAt(i: nat) {
      i + 3 < |tokens| && tokens[i].text == "import" && tokens[i + 1].text != "<eof>" && tokens[i + 2].text == ";"
    }

    /** Where the imports that begin at `i` end. */
    ghost function HeaderEnd(i: nat): (e: nat)
      ensures i <= e
      decreases |tokens| - i
    {
      if ImportAt(i) then HeaderEnd(i + 3) else i
    }

    /** `mods` and the modules they name. */
    ghost function HeaderNames(mods: seq<string>, i: nat): seq<string>
      decreases |tokens| - i
    {
      if ImportAt(i) then HeaderNames(mods + ModuleNamed(tokens[i + 1].text), i + 3) else mods
    }

    lemma HeaderStep(mods: seq<string>, i: nat)
      ensures ImportAt(i) ==>
                HeaderEnd(i) == HeaderEnd(i + 3) &&
                HeaderNames(mods, i) == HeaderNames(mods + ModuleNamed(tokens[i + 1].text), i + 3)
      ensures !ImportAt(i) ==> HeaderEnd(i) == i
    {
    }

    /** Quotes are dropped, and an empty quoted name is no import at all. */
    function ModuleNamed(name: string): seq<string> {
      if 2 <= |name| && name[0] == '"' && name[|name| - 1] == '"' then
        if |name| > 2 then [name[1..|name| - 1]] else []
      else [name]
    }

    method ParseImport() returns (r: Outcome<seq<string>>)
      requires Valid() && Peek() == "import"
      modifies this
      ensures Moved(r.Done?) && !r.Aborted? && (r.Done? <==> ImportAt(old(index)))
      ensures r.Done? ==> index == old(index) + 3 && r.value == ModuleNamed(tokens[old(index) + 1].text)
    {
      var _ := Skip();
      r := ImportedName();
    }

    method ImportedName() returns (r: Outcome<seq<string>>)
      requires Valid()
      modifies this
      ensures Moved(r.Done?) && !r.Aborted?
      ensures r.Done? <==> old(Peek()) != "<eof>" && tokens[old(index) + 1].text == ";"
      ensures r.Done? ==> index == old(index) + 2 && r.value == ModuleNamed(old(Peek()))
    {
      var name :- Take();
      var _ :- Expect(";");
      return Done(ModuleNamed(name));
    }

    /** Takes the import header and returns what it names; it throws exactly when something
        that begins with `import` is not one. */
    method ParseImports() returns (r: Outcome<seq<string>>)
      requires Valid()
      modifies this
      ensures Moved(false) && !r.Aborted? && HeaderEnd(old(index)) < |tokens|
      ensures r.Done? <==> tokens[HeaderEnd(old(index))].text != "import"
      ensures r.Done? ==> index == HeaderEnd(old(index)) && r.value == HeaderNames([], old(index))
    {
      var mods: seq<string> := [];
      ghost var end, names := HeaderEnd(index), HeaderNames([], index);
      while Peek() == "import"
        invariant Moved(false)
        invariant HeaderEnd(index) == end && HeaderNames(mods, index) == names
        decreases |tokens| - index
      {
        mods :- HeaderTurn(mods);
      }
      return Done(mods);
    }

    /** One turn of the loop of lines 316-325. */
    method HeaderTurn(mods: seq<string>) returns (r: Outcome<seq<string>>)
      requires Valid() && Peek() == "import"
      modifies this
      ensures Moved(r.Done?) && !r.Aborted?
      ensures r.Done? ==>
                HeaderEnd(index) == HeaderEnd(old(index)) &&
                HeaderNames(r.value, index) == HeaderNames(mods, old(index))
      ensures !r.Done? ==> HeaderEnd(old(index)) == old(index)
    {
      HeaderStep(mods, index);
      r := ParseImport();
      if r.Done? {
        r := Done(mods + r.value);
      }
    }

    /** The part of `collect_declarations` that reads tokens. It throws exactly when the header is
        broken; otherwise it ends where the loop does. */
    method CollectOwnDeclarations() returns (r: Outcome<seq<string>>, end: LoopEnd)
      requires Valid()
      modifies this
      ensures Valid() && old(index) <= index && HeaderEnd(old(index)) < |tokens| && !r.Aborted?
      ensures r.Thrown? <==> tokens[HeaderEnd(old(index))].text == "import"
      ensures r.Done? ==> r.value == HeaderNames([], old(index)) && HeaderEnd(old(index)) <= index
      ensures r.Done? ==> (end.AtEnd? <==> !end.Abort? && Peek() == "<eof>")
      ensures r.Done? ==> (end.AtImport? <==> !end.Abort? && Peek() == "import")
    {
      end := Abort;
      r := ParseImports();
      if r.Done? {
        end := DeclarationLoop();
      }
    }
  }

  /** How the declaration loop ends: `AtImport` is where the compiler's own loop does not. */
  datatype LoopEnd = AtEnd | AtImport | Abort

  /** `; import a ;`: recovery stops at the `import`, and the loop never leaves it. */
  method StuckAtImport(types: Tables, n: nat) returns (p: Parser)
    requires types.Valid()
    ensures p.Valid() && p.index == 1 && p.diagnostics == n + 1
    ensures p.tokens == [Token(";", 1), Token("import", 1), Token("a", 1), Token(";", 1), Token("<eof>", 1)]
  {
    p := new Parser([Token(";", 1), Token("import", 1), Token("a", 1), Token(";", 1), Token("<eof>", 1)], types);
    assert p.tokens[0].text == ";" && p.tokens[1].text == "import";
    var _ := p.DeclarationTurn();
    p.TurnsAtImport(n);
  }
}
