/** What the textual test of `block_inner` recognises, and so for which sources blanking is
    harmless. */
module DeadTest {
  import opened Text
  import opened Words
  import opened Expressions
  import opened Statements
  import opened Blanking

  // ---- The test on emitted text ----

  /** A character that cannot be part of `proc_exit`. */
  predicate Delimiter(c: char) {
    c !in PROC_EXIT
  }

  lemma Letters(s: string, i: nat)
    requires Occurs(PROC_EXIT, s, i)
    ensures s[i] == 'p' && forall j :: i <= j < i + 9 ==> s[j] in PROC_EXIT
  {
    forall j | i <= j < i + 9 ensures s[j] in PROC_EXIT {
      assert s[j] == s[i..i + 9][j - i] == PROC_EXIT[j - i];
    }
    assert s[i] == s[i..i + 9][0];
  }

  /** Across a boundary with a delimiter on one side, `proc_exit` does not appear out of nothing. */
  lemma Join(a: string, b: string)
    requires a == [] || b == [] || Delimiter(a[|a| - 1]) || Delimiter(b[0])
    ensures Contains(a + b, PROC_EXIT) <==> Contains(a, PROC_EXIT) || Contains(b, PROC_EXIT)
  {
    var s := a + b;
    assert (a != [] ==> s[|a| - 1] == a[|a| - 1]) && (b != [] ==> s[|a|] == b[0]);
    forall i: nat | Occurs(PROC_EXIT, s, i) ensures Contains(a, PROC_EXIT) || Contains(b, PROC_EXIT) {
      Letters(s, i);
      if i + 9 <= |a| {
        assert s[i..i + 9] == a[i..i + 9];
        assert Occurs(PROC_EXIT, a, i);
      } else if |a| <= i {
        assert s[i..i + 9] == b[i - |a|..i - |a| + 9];
        assert Occurs(PROC_EXIT, b, i - |a|);
      }
    }
    forall i: nat | Occurs(PROC_EXIT, a, i) ensures Contains(s, PROC_EXIT) {
      assert s[i..i + 9] == a[i..i + 9];
      assert Occurs(PROC_EXIT, s, i);
    }
    forall i: nat | Occurs(PROC_EXIT, b, i) ensures Contains(s, PROC_EXIT) {
      assert s[|a| + i..|a| + i + 9] == b[i..i + 9];
      assert Occurs(PROC_EXIT, s, |a| + i);
    }
  }

  lemma NoP(s: string)
    requires 'p' !in s
    ensures !Contains(s, PROC_EXIT)
  {
    forall i: nat | Occurs(PROC_EXIT, s, i) ensures false {
      Letters(s, i);
    }
  }

  /** Fixed text that separates what stands around it. */
  predicate Glue(g: string) {
    g != [] && 'p' !in g && Delimiter(g[0]) && Delimiter(g[|g| - 1])
  }

  lemma Around(a: string, g: string, b: string)
    requires Glue(g)
    ensures Contains(a + g + b, PROC_EXIT) <==> Contains(a, PROC_EXIT) || Contains(b, PROC_EXIT)
  {
    NoP(g);
    Join(a, g);
    Join(a + g, b);
  }

  lemma After(a: string, g: string)
    requires Glue(g)
    ensures Contains(a + g, PROC_EXIT) <==> Contains(a, PROC_EXIT)
  {
    NoP(g);
    Join(a, g);
  }

  lemma Before(g: string, b: string)
    requires g != [] && 'p' !in g && Delimiter(g[|g| - 1])
    ensures Contains(g + b, PROC_EXIT) <==> Contains(b, PROC_EXIT)
  {
    NoP(g);
    Join(g, b);
  }

  /** A name the test cannot mistake for anything else. */
  predicate CleanName(n: string) {
    n != [] && IsWordStart(n[0]) && !Contains(n, PROC_EXIT) && !("return" <= n)
  }

  predicate CleanExpr(e: Expr) {
    match e
    case Var(name) => CleanName(name)
    case Lit(_) => true
    case NegLit(_) => true
    case Paren(e) => CleanExpr(e)
    case Un(_, e) => CleanExpr(e)
    case Bin(_, l, r) => CleanExpr(l) && CleanExpr(r)
  }

  lemma DigitsClean(n: nat)
    ensures !Contains(Decimal(n), PROC_EXIT)
  {
    NoP(Decimal(n));
  }

  lemma {:induction false} ExprClean(e: Expr)
    requires CleanExpr(e)
    ensures !Contains(Print(e), PROC_EXIT)
  {
    match e
    case Var(_) =>
    case Lit(n) => DigitsClean(n);
    case NegLit(n) => DigitsClean(n); Before("-", Decimal(n));
    case Paren(e) => ExprClean(e); Before("(", Print(e)); After("(" + Print(e), ")");
    case Un(op, e) =>
      ExprClean(e);
      Before("(" + [UnSymbol(op)], Print(e));
      After("(" + [UnSymbol(op)] + Print(e), ")");
    case Bin(op, l, r) => ExprClean(l); ExprClean(r); BinClean(op, Print(l), Print(r));
  }

  lemma BinClean(op: Binop, l: string, r: string)
    requires !Contains(l, PROC_EXIT) && !Contains(r, PROC_EXIT)
    ensures !Contains("(" + l + " " + Symbol(op) + " " + r + ")", PROC_EXIT)
  {
    Before("(", l);
    NoP(Symbol(op));
    Around("(" + l, " ", Symbol(op));
    Around("(" + l + " " + Symbol(op), " ", r);
    After("(" + l + " " + Symbol(op) + " " + r, ")");
  }

  predicate Clean(s: Stmt)
    decreases s, 0
  {
    match s
    case Let(name, e) => CleanName(name) && CleanExpr(e)
    case Assign(name, e) => CleanName(name) && CleanExpr(e)
    case Evaluate(e) => CleanExpr(e)
    case Return(e) => CleanExpr(e)
    case Exit(e) => CleanExpr(e)
    case Call(name, args) => CleanName(name) && CleanArgs(args)
    case If(c, thenBody, elseBody) => CleanExpr(c) && CleanAll(thenBody) && CleanElse(elseBody)
    case While(c, body) => CleanExpr(c) && CleanAll(body)
    case Do(body, c) => CleanExpr(c) && CleanAll(body)
    case Until(c, body) => CleanExpr(c) && CleanAll(body)
    case For(n, i, c, t, st, body) =>
      CleanName(n) && CleanExpr(i) && CleanExpr(c) && CleanName(t) && CleanExpr(st) && CleanAll(body)
    case Switch(e, arms, default) => CleanExpr(e) && CleanArms(arms) && (default.Default? ==> CleanAll(default.body))
    case _ => true
  }

  predicate CleanArgs(args: seq<Arg>) {
    args == [] ||
    ((match args[0]
      case Value(e) => CleanExpr(e)
      case Literal(text) => 2 <= |text| && text[0] == '"' && text[|text| - 1] == '"') &&
     CleanArgs(args[1..]))
  }

  predicate CleanElse(e: Else)
    decreases e, 0
  {
    match e
    case NoElse => true
    case Block(body) => CleanAll(body)
    case Chain(s) => Clean(s)
  }

  predicate CleanAll(ss: seq<Stmt>)
    decreases ss, 0
  {
    ss == [] || (Clean(ss[0]) && CleanAll(ss[1..]))
  }

  predicate CleanArms(arms: seq<Arm>)
    decreases arms, 0
  {
    arms == [] || (CleanExpr(arms[0].value) && CleanAll(arms[0].body) && CleanArms(arms[1..]))
  }

  /** `proc_exit` stands somewhere inside, as a call or in a string. */
  predicate Mentions(s: Stmt)
    decreases s, 0
  {
    match s
    case Exit(_) => true
    case Call(_, args) => MentionsArgs(args)
    case If(_, thenBody, elseBody) => MentionsAny(thenBody) || MentionsElse(elseBody)
    case While(_, body) => MentionsAny(body)
    case Do(body, _) => MentionsAny(body)
    case Until(_, body) => MentionsAny(body)
    case For(_, _, _, _, _, body) => MentionsAny(body)
    case Switch(_, arms, default) => MentionsArms(arms) || (default.Default? && MentionsAny(default.body))
    case _ => false
  }

  predicate MentionsArgs(args: seq<Arg>) {
    args != [] && ((args[0].Literal? && Contains(args[0].text, PROC_EXIT)) || MentionsArgs(args[1..]))
  }

  predicate MentionsElse(e: Else)
    decreases e, 0
  {
    match e
    case NoElse => false
    case Block(body) => MentionsAny(body)
    case Chain(s) => Mentions(s)
  }

  predicate MentionsAny(ss: seq<Stmt>)
    decreases ss, 0
  {
    ss != [] && (Mentions(ss[0]) || MentionsAny(ss[1..]))
  }

  predicate MentionsArms(arms: seq<Arm>)
    decreases arms, 0
  {
    arms != [] && (MentionsAny(arms[0].body) || MentionsArms(arms[1..]))
  }

  lemma {:induction false} EmitExits(s: Stmt)
    requires Clean(s)
    ensures Contains(Emit(s), PROC_EXIT) <==> Mentions(s)
    decreases s, 1
  {
    match s
    case Let(name, e) => ExprClean(e); LetText("int ", name, Print(e), ";");
    case Assign(name, e) => ExprClean(e); LetText("(", name, Print(e), ");");
    case Evaluate(e) => ExprClean(e); After(Print(e), ";");
    case Return(e) => ExprClean(e); Before("return ", Print(e)); After("return " + Print(e), ";");
    case Exit(e) => assert Occurs(PROC_EXIT, Emit(s), 0);
    case Call(name, args) => CallMentions(name, args);
    case If(_, _, _) => IfExits(s);
    case While(_, _) => WhileExits(s);
    case Do(_, _) => DoExits(s);
    case Until(_, _) => DoExits(s);
    case For(n, i, c, t, st, body) => ForExits(s);
    case Switch(e, arms, default) => SwitchExits(s);
    case Blank => NoP("0;");
    case ReturnVoid => NoP("return;");
    case Break => NoP("break;");
    case Continue => NoP("continue;");
  }

  lemma {:induction false} ArgsMention(args: seq<Arg>)
    requires CleanArgs(args)
    ensures Contains(EmitArgs(args), PROC_EXIT) <==> MentionsArgs(args)
  {
    if args == [] {
      NoP("");
    } else {
      var text := if args[0].Literal? then args[0].text else Print(args[0].e);
      ArgsMention(args[1..]);
      if args[0].Value? {
        ExprClean(args[0].e);
      }
      if |args| > 1 {
        Around(text, ", ", EmitArgs(args[1..]));
      } else {
        assert EmitArgs(args) == text;
      }
    }
  }

  lemma TooShort(s: string)
    requires |s| < 9
    ensures !Contains(s, PROC_EXIT)
  {
  }

  lemma HeadClean(name: string, text: bool)
    requires CleanName(name)
    ensures var head := CallHead(name, text);
            head != [] && Delimiter(head[|head| - 1]) && !Contains(head, PROC_EXIT)
  {
    TooShort("printf(");
    TooShort("puts(");
    NoP("\"%lld\\n\", (long long)(");
    NoP("\"%lld\", (long long)(");
    TooShort("\"%s\", ");
    NoP("syscall_h(");
    Join("printf(", "\"%lld\\n\", (long long)(");
    Join("printf(", "\"%lld\", (long long)(");
    Join("printf(", "\"%s\", ");
    After(name, "(");
  }

  lemma CallMentions(name: string, args: seq<Arg>)
    requires CleanName(name) && CleanArgs(args)
    ensures Contains(EmitCall(name, args), PROC_EXIT) <==> MentionsArgs(args)
  {
    var text := args != [] && args[0].Literal?;
    HeadClean(name, text);
    ArgsMention(args);
    Join(CallHead(name, text), EmitArgs(args));
    After(CallHead(name, text) + EmitArgs(args), ");");
    After(CallHead(name, text) + EmitArgs(args), "));");
  }

  lemma LetText(open: string, name: string, e: string, close: string)
    requires open != [] && 'p' !in open && Delimiter(open[|open| - 1]) && Glue(close)
    requires !Contains(name, PROC_EXIT) && !Contains(e, PROC_EXIT)
    ensures !Contains(open + name + " = " + e + close, PROC_EXIT)
  {
    Before(open, name);
    Around(open + name, " = ", e);
    After(open + name + " = " + e, close);
  }

  lemma HeadText(open: string, c: string, body: string)
    requires open != [] && 'p' !in open && Delimiter(open[|open| - 1]) && !Contains(c, PROC_EXIT)
    ensures Contains(open + c + ") {\n" + body, PROC_EXIT) <==> Contains(body, PROC_EXIT)
  {
    Before(open, c);
    Around(open + c, ") {\n", body);
  }

  lemma DoText(body: string, middle: string, c: string, close: string)
    requires Glue(middle) && Glue(close) && !Contains(c, PROC_EXIT)
    ensures Contains("do {\n" + body + middle + c + close, PROC_EXIT) <==> Contains(body, PROC_EXIT)
  {
    Before("do {\n", body);
    Around("do {\n" + body, middle, c);
    After("do {\n" + body + middle + c, close);
  }

  lemma {:induction false} IfExits(s: Stmt)
    requires s.If? && Clean(s)
    ensures Contains(Emit(s), PROC_EXIT) <==> Mentions(s)
    decreases s, 0
  {
    var c, body := Print(s.cond), Lines(PAD, s.thenBody);
    ExprClean(s.cond);
    LinesExit(PAD, s.thenBody);
    ElseExits(s.elseBody);
    HeadText("if (", c, body);
    Around("if (" + c + ") {\n" + body, "}", EmitElse(s.elseBody));
  }

  lemma {:induction false} WhileExits(s: Stmt)
    requires s.While? && Clean(s)
    ensures Contains(Emit(s), PROC_EXIT) <==> Mentions(s)
    decreases s, 0
  {
    var c, body := Print(s.cond), Lines(PAD, s.body);
    ExprClean(s.cond);
    LinesExit(PAD, s.body);
    HeadText("while (", c, body);
    After("while (" + c + ") {\n" + body, "}");
  }

  lemma {:induction false} DoExits(s: Stmt)
    requires (s.Do? || s.Until?) && Clean(s)
    ensures Contains(Emit(s), PROC_EXIT) <==> Mentions(s)
    decreases s, 0
  {
    ExprClean(s.cond);
    LinesExit(PAD, s.body);
    if s.Do? {
      DoText(Lines(PAD, s.body), "} while (", Print(s.cond), ");");
    } else {
      DoText(Lines(PAD, s.body), "} while (!(", Print(s.cond), "));");
    }
  }

  lemma {:induction false} ForExits(s: Stmt)
    requires s.For? && Clean(s)
    ensures Contains(Emit(s), PROC_EXIT) <==> Mentions(s)
    decreases s, 0
  {
    ExprClean(s.init);
    ExprClean(s.cond);
    ExprClean(s.step);
    LinesExit(PAD, s.body);
    var a := "for (int " + s.name;
    var b := a + " = " + Print(s.init);
    var c := b + "; " + Print(s.cond);
    var d := c + "; (" + s.target;
    var e := d + " = " + Print(s.step);
    Before("for (int ", s.name);
    Around(a, " = ", Print(s.init));
    Around(b, "; ", Print(s.cond));
    Around(c, "; (", s.target);
    Around(d, " = ", Print(s.step));
    Around(e, ")) {\n", Lines(PAD, s.body));
    After(e + ")) {\n" + Lines(PAD, s.body), "}");
  }

  lemma {:induction false} SwitchExits(s: Stmt)
    requires s.Switch? && Clean(s)
    ensures Contains(Emit(s), PROC_EXIT) <==> Mentions(s)
    decreases s, 0
  {
    ExprClean(s.e);
    ArmsExit(s.arms);
    DefaultExits(s.default);
    var head := "switch (" + Print(s.e) + ") {\n" + EmitArms(s.arms);
    HeadText("switch (", Print(s.e), EmitArms(s.arms));
    DefaultStarts(s.default);
    Join(head, EmitDefault(s.default));
    After(head + EmitDefault(s.default), "}");
  }

  lemma DefaultStarts(d: Default)
    ensures EmitDefault(d) == [] || Delimiter(EmitDefault(d)[0])
  {
  }

  lemma {:induction false} DefaultExits(d: Default)
    requires d.Default? ==> CleanAll(d.body)
    ensures Contains(EmitDefault(d), PROC_EXIT) <==> d.Default? && MentionsAny(d.body)
    decreases d, 0
  {
    match d
    case NoDefault => NoP("");
    case Default(body) =>
      LinesExit(DEEP, body);
      Before("    default: {\n", Lines(DEEP, body));
      After("    default: {\n" + Lines(DEEP, body), "        break;\n    }\n");
  }

  lemma {:induction false} ElseExits(e: Else)
    requires CleanElse(e)
    ensures Contains(EmitElse(e), PROC_EXIT) <==> MentionsElse(e)
    decreases e, 0
  {
    match e
    case NoElse => NoP("");
    case Block(body) =>
      LinesExit(PAD, body);
      Before(" else {\n", Lines(PAD, body));
      After(" else {\n" + Lines(PAD, body), "}");
    case Chain(s) =>
      EmitExits(s);
      Before(" else ", Emit(s));
  }

  lemma {:induction false} LinesExit(pad: string, ss: seq<Stmt>)
    requires CleanAll(ss) && Glue(pad)
    ensures Contains(Lines(pad, ss), PROC_EXIT) <==> MentionsAny(ss)
    decreases ss, 0
  {
    if ss == [] {
      NoP("");
    } else {
      EmitExits(ss[0]);
      LinesExit(pad, ss[1..]);
      Before(pad, Emit(ss[0]));
      Around(pad + Emit(ss[0]), "\n", Lines(pad, ss[1..]));
    }
  }

  lemma {:induction false} ArmsExit(arms: seq<Arm>)
    requires CleanArms(arms)
    ensures Contains(EmitArms(arms), PROC_EXIT) <==> MentionsArms(arms)
    decreases arms, 0
  {
    if arms == [] {
      NoP("");
    } else {
      var head := "    case " + Print(arms[0].value);
      ExprClean(arms[0].value);
      LinesExit(DEEP, arms[0].body);
      ArmsExit(arms[1..]);
      Before("    case ", Print(arms[0].value));
      Around(head, ": {\n", Lines(DEEP, arms[0].body));
      Around(head + ": {\n" + Lines(DEEP, arms[0].body), "        break;\n    }\n", EmitArms(arms[1..]));
    }
  }

  lemma ReturnPrefix(s: string)
    ensures "return" <= s <==>
            |s| >= 6 && s[0] == 'r' && s[1] == 'e' && s[2] == 't' && s[3] == 'u' && s[4] == 'r' && s[5] == 'n'
  {
    if |s| >= 6 && s[0] == 'r' && s[1] == 'e' && s[2] == 't' && s[3] == 'u' && s[4] == 'r' && s[5] == 'n' {
      assert s[..6] == "return";
    }
  }

  lemma StartsReturn(s: Stmt)
    requires Clean(s)
    ensures "return" <= Emit(s) <==> s.Return? || s.ReturnVoid?
  {
    if s.Call? {
      CallStarts(s.name, s.args);
    } else if s.Evaluate? {
      PrintStartsReturn(s.e);
      ReturnPrefix(Print(s.e));
      ReturnPrefix(Emit(s));
    } else {
      ReturnPrefix(Emit(s));
    }
  }

  lemma CallStarts(name: string, args: seq<Arg>)
    requires CleanName(name)
    ensures !("return" <= EmitCall(name, args))
  {
    ReturnPrefix(name);
    ReturnPrefix(EmitCall(name, args));
  }

  lemma PrintStartsReturn(e: Expr)
    requires CleanExpr(e)
    ensures Print(e) != [] && !("return" <= Print(e))
  {
    ReturnPrefix(Print(e));
    if e.Lit? {
      assert Decimal(e.n)[0] in Decimal(e.n);
    }
  }

  /** With clean names, the textual test recognises returns and whatever has a `proc_exit` call
      inside, however deep: conditional exits included. */
  lemma DeadTestRecognises(s: Stmt)
    requires Clean(s)
    ensures LooksDead(Emit(s)) <==> s.Return? || s.ReturnVoid? || Mentions(s)
  {
    EmitExits(s);
    StartsReturn(s);
  }

  // ---- The condition on the source ----

  /** In every block, at every depth, a statement with a successor has a `proc_exit` call inside
      only if it is that call. */
  predicate Direct(s: Stmt)
    decreases s, 0
  {
    match s
    case If(_, thenBody, elseBody) => DirectBlock(thenBody) && DirectElse(elseBody)
    case While(_, body) => DirectBlock(body)
    case Do(body, _) => DirectBlock(body)
    case Until(_, body) => DirectBlock(body)
    case For(_, _, _, _, _, body) => DirectBlock(body)
    case Switch(_, arms, default) => DirectArms(arms) && (default.Default? ==> DirectAll(default.body))
    case _ => true
  }

  predicate DirectElse(e: Else)
    decreases e, 0
  {
    match e
    case NoElse => true
    case Block(body) => DirectBlock(body)
    case Chain(s) => Direct(s)
  }

  predicate DirectArms(arms: seq<Arm>)
    decreases arms, 0
  {
    arms == [] || (DirectAll(arms[0].body) && DirectArms(arms[1..]))
  }

  predicate DirectAll(ss: seq<Stmt>)
    decreases ss, 0
  {
    ss == [] || (Direct(ss[0]) && DirectAll(ss[1..]))
  }

  predicate DirectBlock(ss: seq<Stmt>)
    decreases ss, 1
  {
    DirectAll(ss) && forall i :: 0 <= i < |ss| - 1 && Mentions(ss[i]) ==> ss[i].Exit?
  }

  /** Lowering keeps names clean and adds no exit. */
  lemma {:induction false} LowerExits(s: Stmt)
    requires Clean(s)
    ensures Clean(Lower(s)) && (Mentions(Lower(s)) ==> Mentions(s))
    decreases s, 1
  {
    match s
    case If(_, thenBody, elseBody) => LowerBlockExits(thenBody); LowerElseExits(elseBody);
    case While(_, body) => LowerBlockExits(body);
    case Do(body, _) => LowerBlockExits(body);
    case Until(_, body) => LowerBlockExits(body);
    case For(_, _, _, _, _, body) => LowerBlockExits(body);
    case Switch(_, arms, default) =>
      LowerArmsExit(arms);
      if default.Default? {
        LowerAllExits(default.body);
      }
    case _ =>
  }

  lemma {:induction false} LowerElseExits(e: Else)
    requires CleanElse(e)
    ensures CleanElse(LowerElse(e)) && (MentionsElse(LowerElse(e)) ==> MentionsElse(e))
    decreases e, 0
  {
    match e
    case NoElse =>
    case Block(body) => LowerBlockExits(body);
    case Chain(s) => LowerExits(s);
  }

  lemma {:induction false} LowerArmsExit(arms: seq<Arm>)
    requires CleanArms(arms)
    ensures CleanArms(LowerArms(arms)) && (MentionsArms(LowerArms(arms)) ==> MentionsArms(arms))
    decreases arms, 0
  {
    if arms != [] {
      LowerAllExits(arms[0].body);
      LowerArmsExit(arms[1..]);
      assert LowerArms(arms)[1..] == LowerArms(arms[1..]);
    }
  }

  lemma {:induction false} LowerAllExits(ss: seq<Stmt>)
    requires CleanAll(ss)
    ensures CleanAll(LowerAll(ss)) && (MentionsAny(LowerAll(ss)) ==> MentionsAny(ss))
    decreases ss, 0
  {
    if ss != [] {
      LowerExits(ss[0]);
      LowerAllExits(ss[1..]);
      assert LowerAll(ss)[1..] == LowerAll(ss[1..]);
    }
  }

  lemma {:induction false} LowerBlockExits(ss: seq<Stmt>)
    requires CleanAll(ss)
    ensures CleanAll(LowerBlock(ss)) && (MentionsAny(LowerBlock(ss)) ==> MentionsAny(ss))
    decreases ss, 1
  {
    LowerAllExits(ss);
    BlanksExit(LowerAll(ss), false);
  }

  lemma {:induction false} BlanksExit(ss: seq<Stmt>, terminated: bool)
    requires CleanAll(ss)
    ensures var bs := BlankAfter(ss, terminated); CleanAll(bs) && (MentionsAny(bs) ==> MentionsAny(ss))
    decreases |ss|
  {
    if ss != [] {
      var after := terminated || LooksDead(Emit(ss[0]));
      BlanksExit(ss[1..], after);
      var first := if terminated then Blank else ss[0];
      assert BlankAfter(ss, terminated)[0] == first && (Mentions(first) ==> Mentions(ss[0]));
      assert BlankAfter(ss, terminated)[1..] == BlankAfter(ss[1..], after);
    }
  }

  lemma {:induction false} DirectIsFaithful(s: Stmt)
    requires Clean(s) && Direct(s)
    ensures Faithful(s)
    decreases s, 1
  {
    match s
    case If(_, thenBody, elseBody) =>
      DirectBlockIsFaithful(thenBody);
      match elseBody {
        case NoElse =>
        case Block(body) => DirectBlockIsFaithful(body);
        case Chain(t) => DirectIsFaithful(t);
      }
    case While(_, body) => DirectBlockIsFaithful(body);
    case Do(body, _) => DirectBlockIsFaithful(body);
    case Until(_, body) => DirectBlockIsFaithful(body);
    case For(_, _, _, _, _, body) => DirectBlockIsFaithful(body);
    case Switch(_, arms, default) =>
      DirectArmsAreFaithful(arms);
      if default.Default? {
        DirectAllAreFaithful(default.body);
      }
    case _ =>
  }

  lemma {:induction false} DirectArmsAreFaithful(arms: seq<Arm>)
    requires CleanArms(arms) && DirectArms(arms)
    ensures FaithfulArms(arms)
    decreases arms, 0
  {
    if arms != [] {
      DirectAllAreFaithful(arms[0].body);
      DirectArmsAreFaithful(arms[1..]);
    }
  }

  lemma {:induction false} DirectAllAreFaithful(ss: seq<Stmt>)
    requires CleanAll(ss) && DirectAll(ss)
    ensures FaithfulAll(ss)
    decreases ss, 0
  {
    if ss != [] {
      DirectIsFaithful(ss[0]);
      DirectAllAreFaithful(ss[1..]);
    }
  }

  lemma {:induction false} DirectBlockIsFaithful(ss: seq<Stmt>)
    requires CleanAll(ss) && DirectBlock(ss)
    ensures FaithfulBlock(ss)
    decreases ss, 1
  {
    DirectAllAreFaithful(ss);
    forall i | 0 <= i < |ss| - 1 && LooksDead(Emit(Lower(ss[i]))) ensures IsTerminal(ss[i]) {
      CleanAt(ss, i);
      LowerExits(ss[i]);
      DeadTestRecognises(Lower(ss[i]));
    }
  }

  lemma {:induction false} CleanAt(ss: seq<Stmt>, i: nat)
    requires CleanAll(ss) && i < |ss|
    ensures Clean(ss[i])
    decreases i
  {
    if i > 0 {
      CleanAt(ss[1..], i - 1);
    }
  }

  /** A function body with ordinary names, in which every statement that exits is the call
      itself or ends its block, behaves the same after blanking. */
  lemma DirectExitsSurvive(body: seq<Stmt>)
    requires CleanAll(body) && DirectBlock(body)
    ensures forall st: State, fuel: nat :: ExecBlock(LowerBlock(body), st, fuel) == ExecBlock(body, st, fuel)
  {
    DirectBlockIsFaithful(body);
    BlankingPreserves(body);
  }

  /** A statement that looks dead and is passed loses the rest of its block. */
  lemma PassedLosesTheRest(s: Stmt, rest: seq<Stmt>, st: State, fuel: nat)
    requires Clean(s) && Mentions(Lower(s)) && Exec(s, st, fuel).Normal? && Exec(Lower(s), st, fuel) == Exec(s, st, fuel)
    ensures ExecBlock([s] + rest, st, fuel) == ExecBlock(rest, Exec(s, st, fuel).st, fuel)
    ensures ExecBlock(LowerBlock([s] + rest), st, fuel) == Exec(s, st, fuel)
  {
    var ss := [s] + rest;
    LowerExits(s);
    DeadTestRecognises(Lower(s));
    assert ss[0] == s && ss[1..] == rest;
    assert LowerAll(ss)[0] == Lower(s) && LowerAll(ss)[1..] == LowerAll(rest);
    BlanksDoNothing(LowerAll(rest), Exec(s, st, fuel).st, fuel);
    var ls, dead := LowerBlock(ss), LooksDead(Emit(Lower(s)));
    assert LowerAll(ss) == [Lower(s)] + LowerAll(rest);
    assert ls == [Lower(s)] + BlankAfter(LowerAll(ss)[1..], dead);
  }

  /** So does a conditional exit that is not taken. */
  lemma ConditionalExitLosesTheRest(s: Stmt, rest: seq<Stmt>, st: State, fuel: nat)
    requires s.If? && s.elseBody.NoElse? && Clean(s) && Mentions(Lower(s)) && Eval(s.cond, st.env) == Int(0)
    ensures ExecBlock([s] + rest, st, fuel) == ExecBlock(rest, st, fuel)
    ensures ExecBlock(LowerBlock([s] + rest), st, fuel) == Normal(st)
  {
    assert Lower(s) == If(s.cond, LowerBlock(s.thenBody), NoElse);
    assert Exec(s, st, fuel) == Normal(st) == Exec(Lower(s), st, fuel);
    PassedLosesTheRest(s, rest, st, fuel);
  }

  /** So does a call that only speaks of it, as in `println("proc_exit")`. */
  lemma SpokenExitLosesTheRest(name: string, text: string, rest: seq<Stmt>, st: State, fuel: nat)
    requires CleanName(name) && CleanArgs([Literal(text)]) && Contains(text, PROC_EXIT)
    ensures var spoken := st.(calls := st.calls + [Called(name, [Words(text)])]);
            var ss := [Call(name, [Literal(text)])] + rest;
            ExecBlock(ss, st, fuel) == ExecBlock(rest, spoken, fuel) &&
            ExecBlock(LowerBlock(ss), st, fuel) == Normal(spoken)
  {
    var args := [Literal(text)];
    assert args[1..] == [] && EvalArgs(args[1..], st.env) == Data([]);
    assert EvalArgs(args, st.env) == Data([Words(text)] + []) && [Words(text)] + [] == [Words(text)];
    PassedLosesTheRest(Call(name, args), rest, st, fuel);
  }
}
