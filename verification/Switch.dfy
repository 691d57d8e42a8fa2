/** Switch lowering, `switch_statement` of compiler/dmc.cpp: how labels and statements are
    collected into cases, and what the emitted C, where control falls through, makes of them. */
module Switch {
  import opened Text
  import opened Words
  import opened Expressions
  import opened Statements

  /** What stands between the braces of a switch. */
  datatype Item =
    | CaseLabel(value: Expr)
    | DefaultLabel
    | Body(s: Stmt)

  // ---- What the source says: a label owns the statements up to the next label ----

  function Run(items: seq<Item>): seq<Stmt> {
    if items == [] || !items[0].Body? then [] else [items[0].s] + Run(items[1..])
  }

  function Arms(items: seq<Item>): seq<Arm> {
    if items == [] then []
    else (if items[0].CaseLabel? then [Arm(items[0].value, Run(items[1..]))] else []) + Arms(items[1..])
  }

  predicate HasDefault(items: seq<Item>) {
    items != [] && (items[0].DefaultLabel? || HasDefault(items[1..]))
  }

  function DefaultRun(items: seq<Item>): seq<Stmt> {
    if items == [] then []
    else if items[0].DefaultLabel? then Run(items[1..])
    else DefaultRun(items[1..])
  }

  function Intended(e: Expr, items: seq<Item>): Stmt {
    Stmt.Switch(e, Arms(items), if HasDefault(items) then Default(DefaultRun(items)) else NoDefault)
  }

  // ---- What the collecting loop makes of it ----

  /** The statements after the last label, or all of them after `acc` if there is none. */
  function LastRun(acc: seq<Stmt>, items: seq<Item>): seq<Stmt>
    decreases |items|
  {
    if items == [] then acc
    else if items[0].Body? then LastRun(acc + [items[0].s], items[1..])
    else LastRun([], items[1..])
  }

  function Collected(e: Expr, items: seq<Item>): Stmt {
    Stmt.Switch(e, Arms(items), if HasDefault(items) then Default(LastRun([], items)) else NoDefault)
  }

  function Closed(cases: seq<Arm>, have: bool, value: Expr, body: seq<Stmt>): seq<Arm> {
    if have then cases + [Arm(value, body)] else cases
  }

  /** The arms that come out of `items`, given the closed cases and the open one. */
  function ArmsFrom(cases: seq<Arm>, have: bool, value: Expr, body: seq<Stmt>, items: seq<Item>): seq<Arm> {
    Closed(cases, have, value, body + Run(items)) + Arms(items)
  }

  lemma Regrouped(a: seq<Arm>, b: seq<Arm>, c: seq<Arm>)
    ensures a + (b + c) == a + b + c
  {
  }

  lemma NothingAdded(body: seq<Stmt>)
    ensures body + [] == body && [] + body == body
  {
  }

  lemma StatementAdded(body: seq<Stmt>, s: Stmt, run: seq<Stmt>)
    ensures body + ([s] + run) == body + [s] + run
  {
  }

  lemma ArmsStep(cases: seq<Arm>, have: bool, value: Expr, body: seq<Stmt>, items: seq<Item>)
    requires items != []
    ensures ArmsFrom(cases, have, value, body, items) ==
            match items[0]
            case CaseLabel(v) => ArmsFrom(Closed(cases, have, value, body), true, v, [], items[1..])
            case DefaultLabel => ArmsFrom(Closed(cases, have, value, body), false, value, [], items[1..])
            case Body(s) => ArmsFrom(cases, have, value, body + [s], items[1..])
  {
    var run, more := Run(items[1..]), Arms(items[1..]);
    NothingAdded(body);
    NothingAdded(run);
    match items[0]
    case CaseLabel(v) =>
      Regrouped(Closed(cases, have, value, body), [Arm(v, run)], more);
    case DefaultLabel =>
      assert [] + more == more;
    case Body(s) =>
      StatementAdded(body, s, run);
      assert [] + more == more;
  }

  method SwitchStatement(e: Expr, items: seq<Item>) returns (r: Stmt)
    ensures r == Collected(e, items)
  {
    var cases, currentBody, currentValue, haveValue := [], [], Lit(0), false;
    var haveDefault := false;
    var i := 0;
    while i < |items|
      invariant 0 <= i <= |items|
      invariant Arms(items) == ArmsFrom(cases, haveValue, currentValue, currentBody, items[i..])
      invariant HasDefault(items) == (haveDefault || HasDefault(items[i..]))
      invariant LastRun([], items) == LastRun(currentBody, items[i..])
    {
      assert items[i..][1..] == items[i + 1..];
      ArmsStep(cases, haveValue, currentValue, currentBody, items[i..]);
      match items[i] {
        case CaseLabel(value) =>
          if haveValue {
            cases := cases + [Arm(currentValue, currentBody)];
          }
          currentValue, currentBody, haveValue := value, [], true;
        case DefaultLabel =>
          if haveValue {
            cases := cases + [Arm(currentValue, currentBody)];
          }
          currentBody, haveValue, haveDefault := [], false, true;
        case Body(s) =>
          currentBody := currentBody + [s];
      }
      i := i + 1;
    }
    assert currentBody + Run(items[i..]) == currentBody;
    if haveValue {
      cases := cases + [Arm(currentValue, currentBody)];
    }
    r := Stmt.Switch(e, cases, if haveDefault then Default(currentBody) else NoDefault);
  }

  // ---- When they agree ----

  predicate Unlabelled(items: seq<Item>) {
    forall i :: 0 <= i < |items| ==> items[i].Body?
  }

  lemma {:induction false} LastRunUnlabelled(acc: seq<Stmt>, items: seq<Item>)
    requires Unlabelled(items)
    ensures LastRun(acc, items) == acc + Run(items)
    decreases |items|
  {
    if items != [] {
      LastRunUnlabelled(acc + [items[0].s], items[1..]);
    }
  }

  /** The default gets the statements of the last section, whichever label that has. */
  lemma {:induction false} DefaultGetsLastSection(acc: seq<Stmt>, items: seq<Item>, i: nat)
    requires LastLabel(items, i)
    ensures LastRun(acc, items) == Run(items[i + 1..])
    decreases |items|
  {
    if i == 0 {
      LastRunUnlabelled([], items[1..]);
    } else {
      assert items[1..][i..] == items[i + 1..];
      DefaultGetsLastSection(if items[0].Body? then acc + [items[0].s] else [], items[1..], i - 1);
    }
  }

  /** The first `default` of the switch stands at `i`. */
  ghost predicate FirstDefault(items: seq<Item>, i: nat) {
    i < |items| && items[i].DefaultLabel? && forall j :: 0 <= j < i ==> !items[j].DefaultLabel?
  }

  /** Its last label stands at `i`. */
  ghost predicate LastLabel(items: seq<Item>, i: nat) {
    i < |items| && !items[i].Body? && Unlabelled(items[i + 1..])
  }

  lemma {:induction false} DefaultRunAt(items: seq<Item>, i: nat)
    requires FirstDefault(items, i)
    ensures HasDefault(items) && DefaultRun(items) == Run(items[i + 1..])
    decreases |items|
  {
    if i > 0 {
      assert !items[0].DefaultLabel? && items[1..][i..] == items[i + 1..];
      DefaultRunAt(items[1..], i - 1);
    }
  }

  /** With a `default`, the collected switch is the one that was written exactly when the
      statements behind the last label are those behind the `default`. */
  lemma CollectedExactly(e: Expr, items: seq<Item>, i: nat, l: nat)
    requires FirstDefault(items, i) && LastLabel(items, l)
    ensures Collected(e, items) == Intended(e, items) <==> Run(items[l + 1..]) == Run(items[i + 1..])
  {
    DefaultRunAt(items, i);
    DefaultGetsLastSection([], items, l);
  }

  lemma DefaultLastIsCollected(e: Expr, items: seq<Item>, i: nat)
    requires FirstDefault(items, i) && LastLabel(items, i)
    ensures Collected(e, items) == Intended(e, items)
  {
    CollectedExactly(e, items, i, i);
  }

  /** Without a `default` it always is. */
  lemma {:induction false} NoDefaultIsCollected(e: Expr, items: seq<Item>)
    requires forall j :: 0 <= j < |items| ==> !items[j].DefaultLabel?
    ensures !HasDefault(items) && Collected(e, items) == Intended(e, items)
  {
    if items != [] {
      assert !items[0].DefaultLabel?;
      NoDefaultIsCollected(e, items[1..]);
    }
  }

  /** No `case` of the switch has the value `v`. */
  ghost predicate NoCase(items: seq<Item>, v: int, env: Env) {
    forall j :: 0 <= j < |items| && items[j].CaseLabel? ==> Eval(items[j].value, env) != Int(v)
  }

  lemma {:induction false} NoCaseFound(items: seq<Item>, v: int, env: Env)
    ensures FindArm(Arms(items), v, env) == |Arms(items)| <==> NoCase(items, v, env)
  {
    if items != [] {
      var more := items[1..];
      NoCaseFound(more, v, env);
      assert NoCase(items, v, env) <==>
             (items[0].CaseLabel? ==> Eval(items[0].value, env) != Int(v)) && NoCase(more, v, env) by {
        assert forall j :: 0 <= j < |more| ==> more[j] == items[j + 1];
        assert forall j :: 0 < j < |items| ==> items[j] == more[j - 1];
      }
      if items[0].CaseLabel? {
        assert Arms(items)[0].value == items[0].value && Arms(items)[1..] == Arms(more);
      } else {
        assert Arms(items) == Arms(more);
      }
    }
  }

  /** Whatever the order of the labels, only the default can go wrong: a run goes differently
      exactly when no case matches and the statements behind the last label do something else
      than those behind the `default`. */
  lemma OnlyTheDefaultSuffers(e: Expr, items: seq<Item>, i: nat, l: nat, st: State, fuel: nat)
    requires FirstDefault(items, i) && LastLabel(items, l) && Eval(e, st.env).Int?
    ensures Exec(Collected(e, items), st, fuel) != Exec(Intended(e, items), st, fuel) <==>
            NoCase(items, Eval(e, st.env).v, st.env) &&
            Landed(ExecBlock(Run(items[l + 1..]), st, fuel)) != Landed(ExecBlock(Run(items[i + 1..]), st, fuel))
  {
    DefaultRunAt(items, i);
    DefaultGetsLastSection([], items, l);
    NoCaseFound(items, Eval(e, st.env).v, st.env);
  }

  /** `switch (5) { default: return 1; case 0: return 2; }` returns 2. */
  lemma DefaultFirstFails(st: State)
    ensures var items := [DefaultLabel, Body(Return(Lit(1))), CaseLabel(Lit(0)), Body(Return(Lit(2)))];
            Exec(Intended(Lit(5), items), st, 0) == Returned(Some(1), st.calls) &&
            Exec(Collected(Lit(5), items), st, 0) == Returned(Some(2), st.calls)
  {
    DefaultFirst([DefaultLabel, Body(Return(Lit(1))), CaseLabel(Lit(0)), Body(Return(Lit(2)))], st);
  }

  lemma DefaultFirst(items: seq<Item>, st: State)
    requires |items| == 4 && items[0] == DefaultLabel && items[1] == Body(Return(Lit(1)))
    requires items[2] == CaseLabel(Lit(0)) && items[3] == Body(Return(Lit(2)))
    ensures Exec(Intended(Lit(5), items), st, 0) == Returned(Some(1), st.calls)
    ensures Exec(Collected(Lit(5), items), st, 0) == Returned(Some(2), st.calls)
  {
    DefaultGetsLastSection([], items, 2);
    DefaultRunAt(items, 0);
    NoCaseFound(items, 5, st.env);
    Single(Lit(1), st);
    Single(Lit(2), st);
    assert Run(items[1..]) == [Return(Lit(1))] && Run(items[3..]) == [Return(Lit(2))];
  }

  lemma Single(e: Expr, st: State)
    requires Eval(e, st.env).Int?
    ensures ExecBlock([Return(e)], st, 0) == Returned(Some(Eval(e, st.env).v), st.calls)
  {
  }

  // ---- The emitted C ----

  /** A labelled stretch of a C switch; without a value it is the default. */
  datatype Section = Section(value: Option<Expr>, body: seq<Stmt>)

  /** The loop over the cases, lines 899-903, and the default behind them. */
  function Emitted(arms: seq<Arm>, default: Default): seq<Section> {
    if arms != [] then [Section(Some(arms[0].value), arms[0].body + [Break])] + Emitted(arms[1..], default)
    else if default.Default? then [Section(None, default.body + [Break])]
    else []
  }

  predicate Selects(s: Section, v: int, env: Env) {
    s.value.Some? && Eval(s.value.value, env) == Int(v)
  }

  /** Where C jumps to: the matching label, or else the default, or else past the end. */
  function Entry(sections: seq<Section>, v: int, env: Env): (k: nat)
    ensures k <= |sections|
  {
    var k := Matching(sections, v, env);
    if k < |sections| then k else DefaultAt(sections)
  }

  function Matching(sections: seq<Section>, v: int, env: Env): (k: nat)
    ensures k <= |sections|
  {
    if sections == [] || Selects(sections[0], v, env) then 0
    else 1 + Matching(sections[1..], v, env)
  }

  function DefaultAt(sections: seq<Section>): (k: nat)
    ensures k <= |sections|
  {
    if sections == [] || sections[0].value.None? then 0 else 1 + DefaultAt(sections[1..])
  }

  /** From the label on, control runs through section after section. */
  function Through(sections: seq<Section>, st: State, fuel: nat): Outcome {
    if sections == [] then Normal(st)
    else
      var o := ExecBlock(sections[0].body, st, fuel);
      if o.Normal? then Through(sections[1..], o.st, fuel) else o
  }

  function CSwitch(sections: seq<Section>, v: int, st: State, fuel: nat): Outcome {
    Landed(Through(sections[Entry(sections, v, st.env)..], st, fuel))
  }

  lemma {:induction false} BreakEnds(body: seq<Stmt>, st: State, fuel: nat)
    ensures var o := ExecBlock(body, st, fuel);
            ExecBlock(body + [Break], st, fuel) == if o.Normal? then Broke(o.st) else o
    decreases |body|
  {
    if body == [] {
      assert body + [Break] == [Break];
    } else {
      assert (body + [Break])[0] == body[0] && (body + [Break])[1..] == body[1..] + [Break];
      var o := Exec(body[0], st, fuel);
      if o.Normal? {
        BreakEnds(body[1..], o.st, fuel);
      }
    }
  }

  lemma {:induction false} EmittedShape(arms: seq<Arm>, default: Default)
    ensures var cs := Emitted(arms, default);
            |cs| == |arms| + (if default.Default? then 1 else 0) && DefaultAt(cs) == |arms|
    ensures forall k :: 0 <= k < |arms| ==> Emitted(arms, default)[k] == Section(Some(arms[k].value), arms[k].body + [Break])
    ensures default.Default? ==> Emitted(arms, default)[|arms|] == Section(None, default.body + [Break])
  {
    if arms != [] {
      EmittedShape(arms[1..], default);
    }
  }

  lemma {:induction false} EntryIsArm(arms: seq<Arm>, default: Default, v: int, env: Env)
    ensures var k, cs := FindArm(arms, v, env), Emitted(arms, default);
            Matching(cs, v, env) == if k < |arms| then k else |cs|
  {
    if arms != [] {
      EntryIsArm(arms[1..], default, v, env);
    }
  }

  /** A section that ends in a `break` is left there. */
  lemma SectionEnds(cs: seq<Section>, k: nat, body: seq<Stmt>, st: State, fuel: nat)
    requires k < |cs| && cs[k].body == body + [Break]
    ensures Landed(Through(cs[k..], st, fuel)) == Landed(ExecBlock(body, st, fuel))
  {
    BreakEnds(body, st, fuel);
    assert cs[k..][0] == cs[k];
  }

  /** No fall-through: in C, with its jump and its running on from section to section, the
      emitted switch runs exactly the statements of the selected case. */
  lemma NoFallThrough(e: Expr, arms: seq<Arm>, default: Default, st: State, fuel: nat)
    requires Eval(e, st.env).Int?
    ensures CSwitch(Emitted(arms, default), Eval(e, st.env).v, st, fuel) ==
            Exec(Stmt.Switch(e, arms, default), st, fuel)
  {
    var v, cs := Eval(e, st.env).v, Emitted(arms, default);
    EntryIsArm(arms, default, v, st.env);
    EmittedShape(arms, default);
    var k := FindArm(arms, v, st.env);
    assert Entry(cs, v, st.env) == k;
    if k < |arms| {
      SectionEnds(cs, k, arms[k].body, st, fuel);
    } else if default.Default? {
      SectionEnds(cs, k, default.body, st, fuel);
    }
  }
}
