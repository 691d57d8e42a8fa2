/** Statements over integer expressions: the text the compiler emits for them and a big-step
    semantics. A run gets fuel for its loops; equal outcomes for every fuel means equal
    behaviour, divergence included. */
module Statements {
  import opened Text
  import opened Words
  import opened Expressions

  /** `Blank` is the `0;` the compiler puts in place of a statement it takes for dead. */
  datatype Stmt =
    | Blank
    | Let(name: string, e: Expr)
    | Assign(name: string, e: Expr)
    | Evaluate(e: Expr)
    | Return(e: Expr)
    | ReturnVoid
    | Exit(e: Expr)
    | Call(name: string, args: seq<Arg>)
    | Break
    | Continue
    | If(cond: Expr, thenBody: seq<Stmt>, elseBody: Else)
    | While(cond: Expr, body: seq<Stmt>)
    | Do(body: seq<Stmt>, cond: Expr)
    | Until(cond: Expr, body: seq<Stmt>)
    | For(name: string, init: Expr, cond: Expr, target: string, step: Expr, body: seq<Stmt>)
    | Switch(e: Expr, arms: seq<Arm>, default: Default)

  datatype Else = NoElse | Block(body: seq<Stmt>) | Chain(s: Stmt)

  datatype Default = NoDefault | Default(body: seq<Stmt>)

  datatype Arm = Arm(value: Expr, body: seq<Stmt>)

  /** An argument of a call: an integer expression, or a string literal with its quotes. */
  datatype Arg = Value(e: Expr) | Literal(text: string)

  // ---- Behaviour ----

  /** What a call shows to the outside: the function and what it was given. */
  datatype Event = Called(name: string, args: seq<Datum>)

  datatype Datum = Number(v: int) | Words(text: string)

  /** The variables, and the calls made so far. */
  datatype State = State(env: Env, calls: seq<Event>)

  datatype Outcome =
    | Normal(st: State)
    | Returned(value: Option<int>, calls: seq<Event>)
    | Exited(code: int, calls: seq<Event>)
    | Broke(st: State)
    | Continued(st: State)
    | Trapped(why: Value, calls: seq<Event>)
    | OutOfFuel(calls: seq<Event>)

  function Store(env: Env, name: string, v: Int64): Env {
    x => if x == name then v else env(x)
  }

  function Assigned(name: string, v: Value, st: State): Outcome
    requires v.Int? ==> MIN <= v.v <= MAX
  {
    if v.Int? then Normal(st.(env := Store(st.env, name, v.v))) else Trapped(v, st.calls)
  }

  /** A loop or a switch ends normally at a `break`. */
  function Landed(o: Outcome): Outcome {
    if o.Broke? then Normal(o.st) else o
  }

  datatype Data = Data(ds: seq<Datum>) | Stuck(why: Value)

  function EvalArgs(args: seq<Arg>, env: Env): Data {
    if args == [] then Data([])
    else
      var rest := EvalArgs(args[1..], env);
      match args[0]
      case Literal(text) => if rest.Data? then Data([Words(text)] + rest.ds) else rest
      case Value(e) =>
        if !Eval(e, env).Int? then Stuck(Eval(e, env))
        else if rest.Data? then Data([Number(Eval(e, env).v)] + rest.ds)
        else rest
  }

  function CallOf(name: string, args: Data, st: State): Outcome {
    match args
    case Data(ds) => Normal(st.(calls := st.calls + [Called(name, ds)]))
    case Stuck(why) => Trapped(why, st.calls)
  }

  function Exec(s: Stmt, st: State, fuel: nat): Outcome
    decreases fuel, s, 1
  {
    match s
    case Blank => Normal(st)
    case Let(name, e) => Assigned(name, Eval(e, st.env), st)
    case Assign(name, e) => Assigned(name, Eval(e, st.env), st)
    case Evaluate(e) => if Eval(e, st.env).Int? then Normal(st) else Trapped(Eval(e, st.env), st.calls)
    case Return(e) =>
      var v := Eval(e, st.env);
      if v.Int? then Returned(Some(v.v), st.calls) else Trapped(v, st.calls)
    case ReturnVoid => Returned(None, st.calls)
    case Exit(e) =>
      var v := Eval(e, st.env);
      if v.Int? then Exited(ToInt32(v.v), st.calls) else Trapped(v, st.calls)
    case Call(name, args) => CallOf(name, EvalArgs(args, st.env), st)
    case Break => Broke(st)
    case Continue => Continued(st)
    case If(cond, thenBody, elseBody) =>
      var c := Eval(cond, st.env);
      if !c.Int? then Trapped(c, st.calls)
      else if c.v != 0 then ExecBlock(thenBody, st, fuel)
      else
        (match elseBody
         case NoElse => Normal(st)
         case Block(body) => ExecBlock(body, st, fuel)
         case Chain(s) => Exec(s, st, fuel))
    case While(cond, body) => ExecLoop(cond, body, None, true, st, fuel)
    case Do(body, cond) => ExecLoop(cond, body, None, false, st, fuel)
    case Until(cond, body) => ExecLoop(Un(Not, cond), body, None, false, st, fuel)
    case For(name, init, cond, target, step, body) =>
      var o := Assigned(name, Eval(init, st.env), st);
      if o.Normal? then ExecLoop(cond, body, Some((target, step)), true, o.st, fuel) else o
    case Switch(e, arms, default) =>
      var v := Eval(e, st.env);
      if !v.Int? then Trapped(v, st.calls)
      else
        var k := FindArm(arms, v.v, st.env);
        if k < |arms| then Landed(ExecBlock(arms[k].body, st, fuel))
        else if default.Default? then Landed(ExecBlock(default.body, st, fuel))
        else Normal(st)
  }

  function ExecBlock(ss: seq<Stmt>, st: State, fuel: nat): Outcome
    decreases fuel, ss, 0
  {
    if ss == [] then Normal(st)
    else
      match Exec(ss[0], st, fuel)
      case Normal(st') => ExecBlock(ss[1..], st', fuel)
      case other => other
  }

  /** A loop that tests before its body (`test`) or only after it; `step` runs after each body. */
  function ExecLoop(cond: Expr, body: seq<Stmt>, step: Option<(string, Expr)>, test: bool, st: State, fuel: nat): Outcome
    decreases fuel, body, 1
  {
    if fuel == 0 then OutOfFuel(st.calls)
    else
      var c := if test then Eval(cond, st.env) else Int(1);
      if !c.Int? then Trapped(c, st.calls)
      else if c.v == 0 then Normal(st)
      else
        match ExecBlock(body, st, fuel - 1)
        case Broke(st') => Normal(st')
        case Normal(st') => AfterBody(cond, body, step, st', fuel - 1)
        case Continued(st') => AfterBody(cond, body, step, st', fuel - 1)
        case other => other
  }

  function AfterBody(cond: Expr, body: seq<Stmt>, step: Option<(string, Expr)>, st: State, fuel: nat): Outcome
    decreases fuel, body, 2
  {
    if step.None? then ExecLoop(cond, body, step, true, st, fuel)
    else
      var o := Assigned(step.value.0, Eval(step.value.1, st.env), st);
      if o.Normal? then ExecLoop(cond, body, step, true, o.st, fuel) else o
  }

  /** The first arm whose value matches, or the number of arms. */
  function FindArm(arms: seq<Arm>, v: int, env: Env): (k: nat)
    ensures k <= |arms|
  {
    if arms == [] || Eval(arms[0].value, env) == Int(v) then 0 else 1 + FindArm(arms[1..], v, env)
  }

  // ---- Emitted text ----

  const PAD := "    "

  /** The statements of a case are indented twice. */
  const DEEP := "        "

  function Emit(s: Stmt): string
    decreases s, 0
  {
    match s
    case Blank => "0;"
    case Let(name, e) => "int " + name + " = " + Print(e) + ";"
    case Assign(name, e) => "(" + name + " = " + Print(e) + ");"
    case Evaluate(e) => Print(e) + ";"
    case Return(e) => "return " + Print(e) + ";"
    case ReturnVoid => "return;"
    case Exit(e) => "proc_exit(" + Print(e) + ");"
    case Call(name, args) => EmitCall(name, args)
    case Break => "break;"
    case Continue => "continue;"
    case If(cond, thenBody, elseBody) => "if (" + Print(cond) + ") {\n" + Lines(PAD, thenBody) + "}" + EmitElse(elseBody)
    case While(cond, body) => "while (" + Print(cond) + ") {\n" + Lines(PAD, body) + "}"
    case Do(body, cond) => "do {\n" + Lines(PAD, body) + "} while (" + Print(cond) + ");"
    case Until(cond, body) => "do {\n" + Lines(PAD, body) + "} while (!(" + Print(cond) + "));"
    case For(name, init, cond, target, step, body) =>
      "for (int " + name + " = " + Print(init) + "; " + Print(cond) + "; (" + target + " = " + Print(step) + ")) {\n" +
      Lines(PAD, body) + "}"
    case Switch(e, arms, default) =>
      "switch (" + Print(e) + ") {\n" + EmitArms(arms) + EmitDefault(default) + "}"
  }

  /** Lines 1037-1049: some calls are spelled differently in C, by what they are given. */
  function EmitCall(name: string, args: seq<Arg>): string {
    var text := args != [] && args[0].Literal?;
    CallHead(name, text) + EmitArgs(args) + (if !text && (name == "println" || name == "print") then "));" else ");")
  }

  function CallHead(name: string, text: bool): string {
    if name == "println" then if text then "puts(" else "printf(" + "\"%lld\\n\", (long long)("
    else if name == "print" then if text then "printf(" + "\"%s\", " else "printf(" + "\"%lld\", (long long)("
    else if name == "syscall" then "syscall_h("
    else name + "("
  }

  function EmitArgs(args: seq<Arg>): string {
    if args == [] then ""
    else
      (if args[0].Literal? then args[0].text else Print(args[0].e)) +
      (if |args| > 1 then ", " else "") + EmitArgs(args[1..])
  }

  function EmitDefault(d: Default): string
    decreases d, 0
  {
    match d
    case NoDefault => ""
    case Default(body) => "    default: {\n" + Lines(DEEP, body) + "        break;\n    }\n"
  }

  function EmitElse(e: Else): string
    decreases e, 0
  {
    match e
    case NoElse => ""
    case Block(body) => " else {\n" + Lines(PAD, body) + "}"
    case Chain(s) => " else " + Emit(s)
  }

  function Lines(pad: string, ss: seq<Stmt>): string
    decreases ss, 0
  {
    if ss == [] then "" else pad + Emit(ss[0]) + "\n" + Lines(pad, ss[1..])
  }

  function EmitArms(arms: seq<Arm>): string
    decreases arms, 0
  {
    if arms == [] then ""
    else "    case " + Print(arms[0].value) + ": {\n" + Lines(DEEP, arms[0].body) + "        break;\n    }\n" + EmitArms(arms[1..])
  }
}
