/** Dead-statement blanking, `block_inner` of compiler/dmc.cpp: once a statement's text begins
    with `return` or contains `proc_exit`, the later statements of its block become `0;`. */
module Blanking {
  import opened Text
  import opened Words
  import opened Expressions
  import opened Statements

  predicate Occurs(part: string, s: string, i: nat) {
    i + |part| <= |s| && s[i..i + |part|] == part
  }

  predicate Contains(s: string, part: string) {
    exists i :: 0 <= i <= |s| && Occurs(part, s, i)
  }

  const PROC_EXIT := "proc_exit"

  /** The test of line 718, on the emitted text. */
  predicate LooksDead(text: string) {
    "return" <= text || Contains(text, PROC_EXIT)
  }

  // ---- The transformation ----

  function Lower(s: Stmt): Stmt
    decreases s, 0
  {
    match s
    case If(c, thenBody, elseBody) => If(c, LowerBlock(thenBody), LowerElse(elseBody))
    case While(c, body) => While(c, LowerBlock(body))
    case Do(body, c) => Do(LowerBlock(body), c)
    case Until(c, body) => Until(c, LowerBlock(body))
    case For(n, i, c, t, st, body) => For(n, i, c, t, st, LowerBlock(body))
    case Switch(e, arms, default) =>
      Switch(e, LowerArms(arms), if default.Default? then Default(LowerAll(default.body)) else NoDefault)
    case _ => s
  }

  function LowerElse(e: Else): Else
    decreases e, 0
  {
    match e
    case NoElse => NoElse
    case Block(body) => Block(LowerBlock(body))
    case Chain(s) => Chain(Lower(s))
  }

  /** The statements of a case are lowered but never blanked. */
  function LowerArms(arms: seq<Arm>): (r: seq<Arm>)
    ensures |r| == |arms|
    decreases arms, 0
  {
    if arms == [] then [] else [Arm(arms[0].value, LowerAll(arms[0].body))] + LowerArms(arms[1..])
  }

  function LowerAll(ss: seq<Stmt>): (r: seq<Stmt>)
    ensures |r| == |ss|
    decreases ss, 0
  {
    if ss == [] then [] else [Lower(ss[0])] + LowerAll(ss[1..])
  }

  function LowerBlock(ss: seq<Stmt>): seq<Stmt>
    decreases ss, 1
  {
    BlankAfter(LowerAll(ss), false)
  }

  /** The loop of lines 714-719 on statements that are already lowered. */
  function BlankAfter(ss: seq<Stmt>, terminated: bool): (r: seq<Stmt>)
    ensures |r| == |ss|
  {
    if ss == [] then []
    else [if terminated then Blank else ss[0]] + BlankAfter(ss[1..], terminated || LooksDead(Emit(ss[0])))
  }

  lemma BlankStep(ss: seq<Stmt>, terminated: bool, dead: bool)
    requires ss != [] && dead == LooksDead(Emit(ss[0]))
    ensures BlankAfter(ss, terminated) == [if terminated then Blank else ss[0]] + BlankAfter(ss[1..], terminated || dead)
  {
  }

  lemma BlockTurn(ss: seq<Stmt>, i: nat, r: seq<Stmt>, terminated: bool, dead: bool)
    requires i < |ss| && dead == LooksDead(Emit(ss[i]))
    ensures r + BlankAfter(ss[i..], terminated) ==
            r + [if terminated then Blank else ss[i]] + BlankAfter(ss[i + 1..], terminated || dead)
  {
    assert ss[i..][1..] == ss[i + 1..];
    BlankStep(ss[i..], terminated, dead);
  }

  /** `block_inner`: `statement` has lowered each statement of the block. */
  method BlockInner(statements: seq<Stmt>) returns (r: seq<Stmt>)
    ensures r == BlankAfter(statements, false)
  {
    r := [];
    var terminated := false;
    var i := 0;
    while i < |statements|
      invariant 0 <= i <= |statements|
      invariant BlankAfter(statements, false) == r + BlankAfter(statements[i..], terminated)
    {
      var s := statements[i];
      var dead := LooksDead(Emit(s));
      BlockTurn(statements, i, r, terminated, dead);
      r := r + [if terminated then Blank else s];
      if dead {
        terminated := true;
      }
      i := i + 1;
    }
  }

  // ---- When it is harmless ----

  /** Statements that never complete normally: genuine returns and direct `proc_exit` calls. */
  predicate IsTerminal(s: Stmt) {
    s.Return? || s.ReturnVoid? || s.Exit?
  }

  /** In every block, at every depth, a statement that looks dead and has a successor is terminal. */
  predicate Faithful(s: Stmt)
    decreases s, 0
  {
    match s
    case If(_, thenBody, elseBody) => FaithfulBlock(thenBody) && FaithfulElse(elseBody)
    case While(_, body) => FaithfulBlock(body)
    case Do(body, _) => FaithfulBlock(body)
    case Until(_, body) => FaithfulBlock(body)
    case For(_, _, _, _, _, body) => FaithfulBlock(body)
    case Switch(_, arms, default) => FaithfulArms(arms) && (default.Default? ==> FaithfulAll(default.body))
    case _ => true
  }

  predicate FaithfulElse(e: Else)
    decreases e, 0
  {
    match e
    case NoElse => true
    case Block(body) => FaithfulBlock(body)
    case Chain(s) => Faithful(s)
  }

  predicate FaithfulArms(arms: seq<Arm>)
    decreases arms, 0
  {
    arms == [] || (FaithfulAll(arms[0].body) && FaithfulArms(arms[1..]))
  }

  predicate FaithfulAll(ss: seq<Stmt>)
    decreases ss, 0
  {
    ss == [] || (Faithful(ss[0]) && FaithfulAll(ss[1..]))
  }

  predicate FaithfulBlock(ss: seq<Stmt>)
    decreases ss, 1
  {
    FaithfulAll(ss) &&
    forall i :: 0 <= i < |ss| - 1 && LooksDead(Emit(Lower(ss[i]))) ==> IsTerminal(ss[i])
  }

  lemma TerminalStops(s: Stmt, st: State, fuel: nat)
    requires IsTerminal(s)
    ensures !Exec(s, st, fuel).Normal? && Lower(s) == s
  {
  }

  /** Blanking preserves behaviour at every depth. */
  lemma {:induction false} LowerPreserves(s: Stmt, st: State, fuel: nat)
    requires Faithful(s)
    ensures Exec(Lower(s), st, fuel) == Exec(s, st, fuel)
    decreases fuel, s, 1
  {
    match s
    case If(_, thenBody, elseBody) =>
      LowerBlockPreserves(thenBody, st, fuel);
      match elseBody {
        case NoElse =>
        case Block(body) => LowerBlockPreserves(body, st, fuel);
        case Chain(t) => LowerPreserves(t, st, fuel);
      }
    case While(c, body) => LowerLoopPreserves(c, body, None, true, st, fuel);
    case Do(body, c) => LowerLoopPreserves(c, body, None, false, st, fuel);
    case Until(c, body) => LowerLoopPreserves(Un(Not, c), body, None, false, st, fuel);
    case For(name, init, c, target, step, body) =>
      var o := Assigned(name, Eval(init, st.env), st);
      if o.Normal? {
        LowerLoopPreserves(c, body, Some((target, step)), true, o.st, fuel);
      }
    case Switch(e, arms, default) =>
      if Eval(e, st.env).Int? {
        LowerArmsPreserve(arms, Eval(e, st.env).v, st, fuel);
        if default.Default? {
          LowerAllPreserves(default.body, st, fuel);
        }
      }
    case _ =>
  }

  lemma {:induction false} LowerArmsPreserve(arms: seq<Arm>, v: int, st: State, fuel: nat)
    requires FaithfulArms(arms)
    ensures FindArm(LowerArms(arms), v, st.env) == FindArm(arms, v, st.env)
    ensures var k := FindArm(arms, v, st.env);
            k < |arms| ==> ExecBlock(LowerArms(arms)[k].body, st, fuel) == ExecBlock(arms[k].body, st, fuel)
    decreases fuel, arms, 0
  {
    if arms != [] {
      assert LowerArms(arms)[1..] == LowerArms(arms[1..]);
      LowerAllPreserves(arms[0].body, st, fuel);
      LowerArmsPreserve(arms[1..], v, st, fuel);
    }
  }

  lemma {:induction false} LowerAllPreserves(ss: seq<Stmt>, st: State, fuel: nat)
    requires FaithfulAll(ss)
    ensures ExecBlock(LowerAll(ss), st, fuel) == ExecBlock(ss, st, fuel)
    decreases fuel, ss, 0
  {
    if ss != [] {
      assert LowerAll(ss)[0] == Lower(ss[0]) && LowerAll(ss)[1..] == LowerAll(ss[1..]);
      LowerPreserves(ss[0], st, fuel);
      var o := Exec(ss[0], st, fuel);
      if o.Normal? {
        LowerAllPreserves(ss[1..], o.st, fuel);
      }
    }
  }

  lemma {:induction false} LowerBlockPreserves(ss: seq<Stmt>, st: State, fuel: nat)
    requires FaithfulBlock(ss)
    ensures ExecBlock(LowerBlock(ss), st, fuel) == ExecBlock(ss, st, fuel)
    decreases fuel, ss, 0
  {
    if ss != [] {
      var dead := LooksDead(Emit(Lower(ss[0])));
      assert LowerAll(ss)[0] == Lower(ss[0]) && LowerAll(ss)[1..] == LowerAll(ss[1..]);
      assert LowerBlock(ss)[0] == Lower(ss[0]) && LowerBlock(ss)[1..] == BlankAfter(LowerAll(ss[1..]), dead);
      LowerPreserves(ss[0], st, fuel);
      var o := Exec(ss[0], st, fuel);
      if dead && |ss| > 1 {
        TerminalStops(ss[0], st, fuel);
      } else if o.Normal? && !dead {
        assert FaithfulBlock(ss[1..]);
        LowerBlockPreserves(ss[1..], o.st, fuel);
      }
    }
  }

  lemma {:induction false} LowerLoopPreserves(c: Expr, body: seq<Stmt>, step: Option<(string, Expr)>, test: bool, st: State, fuel: nat)
    requires FaithfulBlock(body)
    ensures ExecLoop(c, LowerBlock(body), step, test, st, fuel) == ExecLoop(c, body, step, test, st, fuel)
    decreases fuel, body, 1
  {
    if fuel > 0 {
      LowerBlockPreserves(body, st, fuel - 1);
      var o := ExecBlock(body, st, fuel - 1);
      if o.Normal? || o.Continued? {
        var next := if step.None? then Normal(o.st) else Assigned(step.value.0, Eval(step.value.1, o.st.env), o.st);
        if next.Normal? {
          LowerLoopPreserves(c, body, step, true, next.st, fuel - 1);
        }
      }
    }
  }

  /** A function body: blanking leaves its result unchanged in every environment, for every
      amount of fuel, as long as what looks dead and has a successor really ends the block. */
  lemma BlankingPreserves(body: seq<Stmt>)
    requires FaithfulBlock(body)
    ensures forall st: State, fuel: nat :: ExecBlock(LowerBlock(body), st, fuel) == ExecBlock(body, st, fuel)
  {
    forall st: State, fuel: nat
      ensures ExecBlock(LowerBlock(body), st, fuel) == ExecBlock(body, st, fuel)
    {
      LowerBlockPreserves(body, st, fuel);
    }
  }

  // ---- Exactly when ----

  lemma {:induction false} ExecConcat(a: seq<Stmt>, b: seq<Stmt>, st: State, fuel: nat)
    ensures ExecBlock(a + b, st, fuel) ==
            var o := ExecBlock(a, st, fuel);
            if o.Normal? then ExecBlock(b, o.st, fuel) else o
    decreases |a|
  {
    if a == [] {
      assert a + b == b;
    } else {
      assert (a + b)[0] == a[0] && (a + b)[1..] == a[1..] + b;
      var o := Exec(a[0], st, fuel);
      if o.Normal? {
        ExecConcat(a[1..], b, o.st, fuel);
      }
    }
  }

  lemma {:induction false} BlanksDoNothing(ss: seq<Stmt>, st: State, fuel: nat)
    ensures ExecBlock(BlankAfter(ss, true), st, fuel) == Normal(st)
    decreases |ss|
  {
    if ss != [] {
      BlanksDoNothing(ss[1..], st, fuel);
    }
  }

  /** Statement `k` is the first that looks dead. */
  predicate FirstDead(ss: seq<Stmt>, k: nat) {
    k < |ss| && LooksDead(Emit(ss[k])) && forall i :: 0 <= i < k ==> !LooksDead(Emit(ss[i]))
  }

  lemma {:induction false} BlankSplit(ss: seq<Stmt>, k: nat)
    requires FirstDead(ss, k)
    ensures BlankAfter(ss, false) == ss[..k + 1] + BlankAfter(ss[k + 1..], true)
    decreases |ss|
  {
    if k == 0 {
      BlankStep(ss, false, true);
      assert ss[..1] == [ss[0]];
    } else {
      FirstDeadLater(ss, k);
      BlankSplit(ss[1..], k - 1);
      BlankStep(ss, false, false);
      Shifted(ss, k);
    }
  }

  lemma FirstDeadLater(ss: seq<Stmt>, k: nat)
    requires FirstDead(ss, k) && k > 0
    ensures !LooksDead(Emit(ss[0])) && FirstDead(ss[1..], k - 1)
  {
  }

  lemma Shifted(ss: seq<Stmt>, k: nat)
    requires 0 < k < |ss|
    ensures [ss[0]] + ss[1..][..k] == ss[..k + 1] && ss[1..][k..] == ss[k + 1..]
  {
  }

  lemma {:induction false} LowerAllSlices(ss: seq<Stmt>, k: nat)
    requires k <= |ss|
    ensures LowerAll(ss)[..k] == LowerAll(ss[..k])
    decreases |ss|
  {
    if ss != [] {
      LowerAllSlices(ss[1..], if k > 0 then k - 1 else 0);
      assert k > 0 ==> ss[..k][1..] == ss[1..][..k - 1];
    }
  }

  lemma LowerBlockSplit(ss: seq<Stmt>, k: nat)
    requires FirstDead(LowerAll(ss), k)
    ensures LowerBlock(ss) == LowerAll(ss[..k + 1]) + BlankAfter(LowerAll(ss)[k + 1..], true)
  {
    LowerAllSlices(ss, k + 1);
    BlankSplit(LowerAll(ss), k);
  }

  /** A block whose first dead-looking statement is number `k` keeps its outcome exactly when
      that statement is not passed normally or the rest of the block would change nothing. */
  lemma BlankingExact(ss: seq<Stmt>, k: nat, st: State, fuel: nat)
    requires FaithfulAll(ss) && FirstDead(LowerAll(ss), k)
    ensures var o := ExecBlock(ss[..k + 1], st, fuel);
            ExecBlock(LowerBlock(ss), st, fuel) == ExecBlock(ss, st, fuel) <==>
            (!o.Normal? || ExecBlock(ss[k + 1..], o.st, fuel) == Normal(o.st))
  {
    var kept, lost, blanked := ss[..k + 1], ss[k + 1..], BlankAfter(LowerAll(ss)[k + 1..], true);
    LowerBlockSplit(ss, k);
    FaithfulPrefix(ss, k + 1);
    LowerAllPreserves(kept, st, fuel);
    ExecConcat(LowerAll(kept), blanked, st, fuel);
    assert ss == kept + lost;
    ExecConcat(kept, lost, st, fuel);
    var o := ExecBlock(kept, st, fuel);
    if o.Normal? {
      BlanksDoNothing(LowerAll(ss)[k + 1..], o.st, fuel);
    }
  }

  lemma {:induction false} FaithfulPrefix(ss: seq<Stmt>, k: nat)
    requires FaithfulAll(ss) && k <= |ss|
    ensures FaithfulAll(ss[..k])
    decreases k
  {
    if k > 0 {
      FaithfulPrefix(ss[1..], k - 1);
      assert ss[..k][1..] == ss[1..][..k - 1];
    }
  }
}
