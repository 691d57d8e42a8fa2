/** What the compiler's type tables say about an emitted text: `is_string_arg` of
    compiler/dmc.cpp, and why it is false of integer expressions. */
module TypeTables {
  import opened Text
  import opened Expressions
  import opened Climbing

  /** The tables at one moment of the parse; an unknown name has the type "". `isFloat` is
      `is_float_arg`, `isVariant` is `is_enum_variant_name`, `variant` is `enum_variant_expr`. */
  datatype Tables = Tables(
    typeOf: string -> string,
    fieldType: string -> string,
    returnType: string -> string,
    isFloat: string -> bool,
    isVariant: string -> bool,
    variant: (string, string) -> string)
  {
    /** No function has the empty name: a name is a token, and no token is empty. */
    predicate Valid() {
      returnType("") == ""
    }
  }

  /** The functions of the list at line 1240. */
  const STRING_FUNCTIONS: seq<string> :=
    ["file_read", "tcp_recv", "text_concat", "text_sub", "text_from_int", "text_from_float", "proc_exit",
     "string_copy", "string_slice", "arg_text"]

  /** What stands after the last `).`. */
  function FieldOf(s: string): Option<string> {
    if |s| < 2 then None
    else if FieldOf(s[1..]).Some? then FieldOf(s[1..])
    else if s[0] == ')' && s[1] == '.' then Some(s[2..])
    else None
  }

  predicate NotOpen(c: char) {
    c != '('
  }

  predicate IsStringCall(s: string) {
    exists f <- STRING_FUNCTIONS :: f + ['('] <= s
  }

  predicate IsStringName(types: Tables, s: string) {
    s != [] && IsAlpha(s[0]) && types.typeOf(s) == "string"
  }

  predicate IsStringField(types: Tables, s: string) {
    match FieldOf(s)
    case Some(field) => field != [] && IsAlpha(field[0]) && types.fieldType(field) == "string"
    case None => false
  }

  predicate ReturnsString(types: Tables, s: string) {
    var open := Span(s, NotOpen);
    open < |s| && types.returnType(s[..open]) == "string"
  }

  /** `is_string_arg`. */
  predicate IsString(types: Tables, s: string) {
    (s != [] && s[0] == '"') || IsStringName(types, s) || IsStringField(types, s) || IsStringCall(s) ||
    ReturnsString(types, s)
  }

  // ---- Integer expressions ----

  /** A name the tables take neither for a string nor for an enum variant. */
  predicate IsIntegerName(types: Tables, name: string) {
    !types.isVariant(name) && !IsStringName(types, name)
  }

  /** An expression of the fragment whose names are integer names. */
  predicate IsInteger(types: Tables, e: Expr) {
    match e
    case Var(name) => IsName(name) && IsIntegerName(types, name)
    case Lit(_) => true
    case NegLit(_) => true
    case Paren(e) => IsInteger(types, e)
    case Un(_, e) => IsInteger(types, e)
    case Bin(_, l, r) => IsInteger(types, l) && IsInteger(types, r)
  }

  /** The names among the tokens from `i` to `j` are integer names. */
  ghost predicate IntegerNames(types: Tables, toks: seq<Tok>, i: nat, j: nat) {
    forall k :: i <= k < j && k < |toks| && toks[k].Name? ==> IsIntegerName(types, toks[k].s)
  }

  predicate NotDot(c: char) {
    c != '.'
  }

  lemma {:induction false} NoField(s: string)
    requires forall c <- s :: NotDot(c)
    ensures FieldOf(s).None?
  {
    if |s| >= 2 {
      assert s[1] in s;
      NoField(s[1..]);
    }
  }

  lemma Letters()
    ensures forall f <- STRING_FUNCTIONS :: f != [] && f[0] != '('
  {
  }

  lemma CallHasOpen(f: string, s: string)
    requires f != [] && f + ['('] <= s
    ensures '(' in s && s[0] == f[0]
  {
    assert s[|f|] == (f + ['('])[|f|] && s[0] == (f + ['('])[0];
    assert s[|f|] in s;
  }

  /** A text without parentheses, or that begins with one, is no call. */
  lemma NoCall(types: Tables, s: string)
    requires types.Valid()
    requires (forall c <- s :: NotOpen(c)) || (s != [] && s[0] == '(')
    ensures !IsStringCall(s) && !ReturnsString(types, s)
  {
    Letters();
    forall f <- STRING_FUNCTIONS | f + ['('] <= s ensures false {
      CallHasOpen(f, s);
    }
    if s != [] && s[0] == '(' {
      assert s[..0] == "";
    } else {
      SpanUnique(s, NotOpen, |s|);
    }
  }

  /** The characters of emitted expressions. */
  lemma {:induction false} PrintHasNoDot(types: Tables, e: Expr)
    requires IsInteger(types, e)
    ensures forall c <- Print(e) :: NotDot(c)
  {
    match e
    case Var(_) =>
    case Lit(_) =>
    case NegLit(_) =>
    case Paren(e) => PrintHasNoDot(types, e);
    case Un(_, e) => PrintHasNoDot(types, e);
    case Bin(op, l, r) =>
      PrintHasNoDot(types, l);
      PrintHasNoDot(types, r);
      assert forall c <- Symbol(op) :: NotDot(c);
  }

  /** Whatever strings, structs, functions and enums a program declares: an expression over
      integer names is never taken for a string. */
  lemma IntegersAreNoStrings(types: Tables, e: Expr)
    requires types.Valid() && IsInteger(types, e)
    ensures !IsString(types, Print(e))
  {
    PrintHasNoDot(types, e);
    NoField(Print(e));
    if e.Lit? {
      assert Decimal(e.n)[0] in Decimal(e.n);
    }
    NoCall(types, Print(e));
  }
}
