/** The declaration finder, test-files/parser.dmc: where each top-level declaration starts and
    ends, by counting braces. */
module Spans {
  import opened SelfLexer
  import opened Capped

  datatype Decl = Decl(kind: nat, name: string, start: nat, end: nat)

  predicate IsOpen(t: Tok) {
    t.kind == PUNCTUATION && |t.text| == 1 && t.text[0] == '{'
  }

  predicate IsClose(t: Tok) {
    t.kind == PUNCTUATION && |t.text| == 1 && t.text[0] == '}'
  }

  /** The loop of `skip_to_brace`: past the brace that brings the depth back to 0, or the end. */
  function SkipFrom(ts: seq<Tok>, j: nat, depth: int): (r: nat)
    ensures j <= r
    decreases |ts| - j
  {
    if j >= |ts| then j
    else if IsOpen(ts[j]) then SkipFrom(ts, j + 1, depth + 1)
    else if IsClose(ts[j]) then (if depth == 1 then j + 1 else SkipFrom(ts, j + 1, depth - 1))
    else SkipFrom(ts, j + 1, depth)
  }

  function FindFrom(ts: seq<Tok>, j: nat): (r: nat)
    ensures j <= r
    decreases |ts| - j
  {
    if j < |ts| && !IsOpen(ts[j]) then FindFrom(ts, j + 1) else j
  }

  method SkipToBrace(ts: seq<Tok>, open: nat) returns (j: nat)
    ensures j == SkipFrom(ts, open, 0)
  {
    var depth := 0;
    j := open;
    while j < |ts|
      invariant SkipFrom(ts, open, 0) == SkipFrom(ts, j, depth)
    {
      if IsOpen(ts[j]) {
        depth := depth + 1;
      }
      if IsClose(ts[j]) {
        depth := depth - 1;
        if depth == 0 {
          return j + 1;
        }
      }
      j := j + 1;
    }
  }

  method FindBrace(ts: seq<Tok>, from: nat) returns (j: nat)
    ensures j == FindFrom(ts, from)
  {
    j := from;
    while j < |ts| && !IsOpen(ts[j])
      invariant FindFrom(ts, from) == FindFrom(ts, j)
    {
      j := j + 1;
    }
  }

  /** Declaration kinds by keyword text; 0 for anything else. The kind of the token is not looked at. */
  const KEYWORDS: map<string, nat> := map["import" := 1, "struct" := 2, "enum" := 3, "fn" := 4]

  function KeywordKind(text: string): nat {
    if text in KEYWORDS then KEYWORDS[text] else 0
  }

  /** Where the declaration of kind `k` that starts at `i` ends. */
  function SpanEnd(ts: seq<Tok>, k: nat, i: nat): (e: nat)
    ensures i < e
  {
    if k == 1 then i + 3
    else if k == 4 then SkipFrom(ts, FindFrom(ts, i + 2), 0)
    else SkipFrom(ts, i + 2, 0)
  }

  /** The declarations from token `i` on; the last token must not be a keyword, as the name
      after it is read without looking. */
  function TopFrom(ts: seq<Tok>, i: nat): seq<Decl>
    requires ts != [] ==> KeywordKind(ts[|ts| - 1].text) == 0
    decreases |ts| - i, 1
  {
    if i >= |ts| then [] else TopTurn(ts, i, KeywordKind(ts[i].text))
  }

  function TopTurn(ts: seq<Tok>, i: nat, k: nat): seq<Decl>
    requires i < |ts| && KeywordKind(ts[|ts| - 1].text) == 0 && KeywordKind(ts[i].text) == k
    decreases |ts| - i, 0
  {
    if k == 0 then TopFrom(ts, i + 1)
    else [Decl(k, ts[i + 1].text, i, SpanEnd(ts, k, i))] + TopFrom(ts, SpanEnd(ts, k, i))
  }

  lemma TopAt(ts: seq<Tok>, i: nat, k: nat)
    requires i < |ts| && KeywordKind(ts[|ts| - 1].text) == 0 && KeywordKind(ts[i].text) == k
    ensures k == 0 ==> TopFrom(ts, i) == TopFrom(ts, i + 1)
    ensures k != 0 ==> i + 1 < |ts|
    ensures k != 0 ==> TopFrom(ts, i) == [Decl(k, ts[i + 1].text, i, SpanEnd(ts, k, i))] + TopFrom(ts, SpanEnd(ts, k, i))
  {
  }

  method ParseTop(ts: seq<Tok>, decls: array<Decl>, cap: nat) returns (n: nat)
    requires ts != [] ==> KeywordKind(ts[|ts| - 1].text) == 0
    requires cap <= decls.Length
    modifies decls
    ensures Holds(decls[..], old(decls[..]), TopFrom(ts, 0), cap, n)
  {
    var i: nat := 0;
    n := 0;
    ghost var found: seq<Decl>, initial := [], decls[..];
    while i < |ts|
      invariant Holds(decls[..], initial, found, cap, n)
      invariant TopFrom(ts, 0) == found + TopFrom(ts, i)
      decreases |ts| - i
    {
      var k := KeywordKind(ts[i].text);
      TopAt(ts, i, k);
      if k == 0 {
        i := i + 1;
      } else {
        var e := FindEnd(ts, k, i);
        var d := Decl(k, ts[i + 1].text, i, e);
        HoldsPush(decls[..], initial, found, cap, n, d);
        if n < cap {
          decls[n] := d;
          n := n + 1;
        }
        found := found + [d];
        i := e;
      }
    }
  }

  method FindEnd(ts: seq<Tok>, k: nat, i: nat) returns (e: nat)
    ensures e == SpanEnd(ts, k, i)
  {
    if k == 1 {
      e := i + 3;
    } else if k == 4 {
      var open := FindBrace(ts, i + 2);
      e := SkipToBrace(ts, open);
    } else {
      e := SkipToBrace(ts, i + 2);
    }
  }

  // ---- Well-formed sources ----

  /** Braces match: the depth, starting at `depth`, never goes below 0 and ends at 0. */
  predicate Balanced(body: seq<Tok>, depth: nat) {
    if body == [] then depth == 0
    else if IsOpen(body[0]) then Balanced(body[1..], depth + 1)
    else if IsClose(body[0]) then depth > 0 && Balanced(body[1..], depth - 1)
    else Balanced(body[1..], depth)
  }

  /** A declaration, after tokens that belong to none (an attribute, a stray semicolon). */
  datatype Item = Item(noise: seq<Tok>, keyword: Tok, name: Tok, head: seq<Tok>, open: Tok, body: seq<Tok>, close: Tok)

  predicate IsNoise(ts: seq<Tok>) {
    forall t <- ts :: KeywordKind(t.text) == 0
  }

  /** Imports are `import name ;`; only functions have anything between the name and the brace. */
  predicate WellFormed(d: Item) {
    && IsNoise(d.noise) && KeywordKind(d.keyword.text) != 0
    && (if KeywordKind(d.keyword.text) == 1 then |d.head| == 1 && d.body == []
        else IsOpen(d.open) && Balanced(d.body, 0) && IsClose(d.close) && (forall t <- d.head :: !IsOpen(t)) &&
             (KeywordKind(d.keyword.text) != 4 ==> d.head == []))
  }

  predicate AllWellFormed(items: seq<Item>) {
    items == [] || (WellFormed(items[0]) && AllWellFormed(items[1..]))
  }

  function DeclToks(d: Item): seq<Tok> {
    [d.keyword, d.name] + d.head + Block(d)
  }

  function Block(d: Item): seq<Tok> {
    if KeywordKind(d.keyword.text) == 1 then [] else [d.open] + d.body + [d.close]
  }

  function SourceToks(items: seq<Item>, rest: seq<Tok>): seq<Tok> {
    if items == [] then rest
    else items[0].noise + DeclToks(items[0]) + SourceToks(items[1..], rest)
  }

  /** The spans the declarations have when the source starts at token `at`. */
  function SpansFrom(items: seq<Item>, at: nat): seq<Decl>
    decreases |items|, 1
  {
    if items == [] then [] else SpansOf(items[0], items[1..], at)
  }

  function SpansOf(d: Item, more: seq<Item>, at: nat): seq<Decl>
    decreases |more|, 2
  {
    var start := at + |d.noise|;
    var end := start + |DeclToks(d)|;
    [Decl(KeywordKind(d.keyword.text), d.name.text, start, end)] + SpansFrom(more, end)
  }

  /** `part` stands in `ts` at `i`. */
  ghost predicate Stands(part: seq<Tok>, ts: seq<Tok>, i: nat) {
    i + |part| <= |ts| && forall n :: 0 <= n < |part| ==> ts[i + n] == part[n]
  }

  lemma StandsSplit(a: seq<Tok>, b: seq<Tok>, ts: seq<Tok>, i: nat)
    requires Stands(a + b, ts, i)
    ensures Stands(a, ts, i) && Stands(b, ts, i + |a|)
  {
    assert forall n :: 0 <= n < |a| ==> a[n] == (a + b)[n];
    assert forall n :: 0 <= n < |b| ==> b[n] == (a + b)[|a| + n];
  }

  lemma StandsHead(t: Tok, b: seq<Tok>, ts: seq<Tok>, i: nat)
    requires Stands([t] + b, ts, i)
    ensures i < |ts| && ts[i] == t && Stands(b, ts, i + 1)
  {
    StandsSplit([t], b, ts, i);
    assert [t][0] == t;
  }

  lemma {:induction false} SkipBalanced(ts: seq<Tok>, j: nat, body: seq<Tok>, depth: nat)
    requires Stands(body, ts, j) && Balanced(body, depth)
    ensures SkipFrom(ts, j, depth + 1) == SkipFrom(ts, j + |body|, 1)
    decreases |body|
  {
    if body != [] {
      assert body == [body[0]] + body[1..];
      StandsHead(body[0], body[1..], ts, j);
      SkipBalanced(ts, j + 1, body[1..],
                   if IsOpen(body[0]) then depth + 1 else if IsClose(body[0]) then depth - 1 else depth);
    }
  }

  /** From an opening brace, `skip_to_brace` ends just past the matching one. */
  lemma SkipBlock(ts: seq<Tok>, j: nat, body: seq<Tok>)
    requires Stands(body, ts, j + 1) && Balanced(body, 0) && j + 1 + |body| < |ts|
    requires IsOpen(ts[j]) && IsClose(ts[j + 1 + |body|])
    ensures SkipFrom(ts, j, 0) == j + |body| + 2
  {
    SkipBalanced(ts, j + 1, body, 0);
  }

  lemma BlockStands(ts: seq<Tok>, j: nat, open: Tok, body: seq<Tok>, close: Tok)
    requires Stands([open] + body + [close], ts, j)
    ensures ts[j] == open && Stands(body, ts, j + 1) && j + 1 + |body| < |ts| && ts[j + 1 + |body|] == close
  {
    var w := [open] + body + [close];
    assert w[0] == open && w[1 + |body|] == close;
    assert forall n :: 0 <= n < |body| ==> body[n] == w[1 + n];
  }

  lemma {:induction false} FindAfter(ts: seq<Tok>, j: nat, head: seq<Tok>)
    requires Stands(head, ts, j) && forall t <- head :: !IsOpen(t)
    requires j + |head| < |ts| && IsOpen(ts[j + |head|])
    ensures FindFrom(ts, j) == j + |head|
    decreases |head|
  {
    if head != [] {
      assert head == [head[0]] + head[1..] && head[0] in head;
      StandsHead(head[0], head[1..], ts, j);
      FindAfter(ts, j + 1, head[1..]);
    }
  }

  lemma DeclStands(keyword: Tok, name: Tok, head: seq<Tok>, block: seq<Tok>, ts: seq<Tok>, i: nat)
    requires Stands([keyword] + ([name] + (head + block)), ts, i)
    ensures i + 1 < |ts| && ts[i] == keyword && ts[i + 1] == name
    ensures Stands(head, ts, i + 2) && Stands(block, ts, i + 2 + |head|)
  {
    StandsHead(keyword, [name] + (head + block), ts, i);
    StandsHead(name, head + block, ts, i + 1);
    StandsSplit(head, block, ts, i + 2);
  }

  lemma DeclParts(ts: seq<Tok>, i: nat, d: Item)
    requires Stands(DeclToks(d), ts, i)
    ensures i + 1 < |ts| && ts[i] == d.keyword && ts[i + 1] == d.name
    ensures Stands(d.head, ts, i + 2) && Stands(Block(d), ts, i + 2 + |d.head|)
    ensures |DeclToks(d)| == 2 + |d.head| + |Block(d)|
  {
    assert DeclToks(d) == [d.keyword] + ([d.name] + (d.head + Block(d)));
    DeclStands(d.keyword, d.name, d.head, Block(d), ts, i);
  }

  lemma BlockSkipped(ts: seq<Tok>, j: nat, d: Item)
    requires WellFormed(d) && KeywordKind(d.keyword.text) != 1 && Stands(Block(d), ts, j)
    ensures j < |ts| && IsOpen(ts[j]) && SkipFrom(ts, j, 0) == j + |Block(d)|
  {
    BlockStands(ts, j, d.open, d.body, d.close);
    SkipBlock(ts, j, d.body);
  }

  lemma SpanOfDecl(ts: seq<Tok>, i: nat, d: Item)
    requires WellFormed(d) && Stands(DeclToks(d), ts, i)
    ensures i + 1 < |ts| && ts[i] == d.keyword && ts[i + 1] == d.name
    ensures SpanEnd(ts, KeywordKind(d.keyword.text), i) == i + |DeclToks(d)|
  {
    DeclParts(ts, i, d);
    if KeywordKind(d.keyword.text) != 1 {
      BlockSkipped(ts, i + 2 + |d.head|, d);
      FindAfter(ts, i + 2, d.head);
    }
  }

  lemma {:induction false} NoiseSkipped(ts: seq<Tok>, i: nat, noise: seq<Tok>)
    requires ts != [] ==> KeywordKind(ts[|ts| - 1].text) == 0
    requires Stands(noise, ts, i) && IsNoise(noise)
    ensures TopFrom(ts, i) == TopFrom(ts, i + |noise|)
    decreases |noise|
  {
    if noise != [] {
      assert noise == [noise[0]] + noise[1..] && noise[0] in noise;
      StandsHead(noise[0], noise[1..], ts, i);
      NoiseSkipped(ts, i + 1, noise[1..]);
    }
  }

  /** One declaration, with the tokens before it. */
  lemma ItemFound(ts: seq<Tok>, i: nat, d: Item) returns (end: nat)
    requires ts != [] && KeywordKind(ts[|ts| - 1].text) == 0
    requires WellFormed(d) && Stands(d.noise, ts, i) && Stands(DeclToks(d), ts, i + |d.noise|)
    ensures end == i + |d.noise| + |DeclToks(d)|
    ensures TopFrom(ts, i) == [Decl(KeywordKind(d.keyword.text), d.name.text, i + |d.noise|, end)] + TopFrom(ts, end)
  {
    NoiseSkipped(ts, i, d.noise);
    SpanOfDecl(ts, i + |d.noise|, d);
    TopAt(ts, i + |d.noise|, KeywordKind(d.keyword.text));
    end := i + |d.noise| + |DeclToks(d)|;
  }

  /** The source from token `i` on consists of `items` and `rest`. */
  ghost predicate Layout(ts: seq<Tok>, i: nat, items: seq<Item>, rest: seq<Tok>)
    decreases |items|, 1
  {
    if items == [] then Stands(rest, ts, i) && i + |rest| == |ts|
    else LayoutOf(ts, i, items[0], items[1..], rest)
  }

  ghost predicate LayoutOf(ts: seq<Tok>, i: nat, d: Item, more: seq<Item>, rest: seq<Tok>)
    decreases |more|, 2
  {
    Stands(d.noise, ts, i) && Stands(DeclToks(d), ts, i + |d.noise|) &&
    Layout(ts, i + |d.noise| + |DeclToks(d)|, more, rest)
  }

  lemma {:induction false} SourceLayout(ts: seq<Tok>, i: nat, items: seq<Item>, rest: seq<Tok>)
    requires Stands(SourceToks(items, rest), ts, i) && i + |SourceToks(items, rest)| == |ts|
    ensures Layout(ts, i, items, rest)
    decreases |items|
  {
    if items != [] {
      var noise, decl, tail := items[0].noise, DeclToks(items[0]), SourceToks(items[1..], rest);
      StandsSplit(noise + decl, tail, ts, i);
      StandsSplit(noise, decl, ts, i);
      SourceLayout(ts, i + |noise| + |decl|, items[1..], rest);
    }
  }

  lemma NothingFound(ts: seq<Tok>, i: nat, rest: seq<Tok>)
    requires ts != [] && KeywordKind(ts[|ts| - 1].text) == 0
    requires IsNoise(rest) && Stands(rest, ts, i) && i + |rest| == |ts|
    ensures TopFrom(ts, i) == []
  {
    NoiseSkipped(ts, i, rest);
  }

  lemma {:induction false} TopFindsFrom(ts: seq<Tok>, i: nat, items: seq<Item>, rest: seq<Tok>)
    requires ts != [] && KeywordKind(ts[|ts| - 1].text) == 0
    requires AllWellFormed(items) && IsNoise(rest) && Layout(ts, i, items, rest)
    ensures TopFrom(ts, i) == SpansFrom(items, i)
    decreases |items|
  {
    if items == [] {
      NothingFound(ts, i, rest);
    } else {
      var end := ItemFound(ts, i, items[0]);
      TopFindsFrom(ts, end, items[1..], rest);
    }
  }

  /** On a source of well-formed declarations, at any nesting depth and with braces in strings,
      `parse_top` finds exactly those declarations, in order, each span ending just past its
      matching brace. */
  lemma TopFindsDeclarations(items: seq<Item>, rest: seq<Tok>)
    requires AllWellFormed(items) && rest != [] && IsNoise(rest)
    ensures var ts := SourceToks(items, rest);
            ts != [] && KeywordKind(ts[|ts| - 1].text) == 0 && TopFrom(ts, 0) == SpansFrom(items, 0)
  {
    var ts := SourceToks(items, rest);
    SourceEnds(items, rest);
    assert rest[|rest| - 1] in rest;
    SourceLayout(ts, 0, items, rest);
    TopFindsFrom(ts, 0, items, rest);
  }

  lemma {:induction false} SourceEnds(items: seq<Item>, rest: seq<Tok>)
    requires rest != []
    ensures SourceToks(items, rest) != []
    ensures SourceToks(items, rest)[|SourceToks(items, rest)| - 1] == rest[|rest| - 1]
  {
    if items != [] {
      SourceEnds(items[1..], rest);
    }
  }

  /** The spans are disjoint and in order. */
  lemma {:induction false} SpansDisjoint(items: seq<Item>, at: nat)
    ensures |SpansFrom(items, at)| == |items|
    ensures forall d <- SpansFrom(items, at) :: at <= d.start < d.end
    ensures forall m, n :: 0 <= m < n < |items| ==> SpansFrom(items, at)[m].end <= SpansFrom(items, at)[n].start
  {
    if items != [] {
      SpansDisjoint(items[1..], at + |items[0].noise| + |DeclToks(items[0])|);
    }
  }
}
