/** `format_dmc_code` of compiler/dmc.cpp: lines are stripped of leading blanks and indented
    by brace depth. It is idempotent. */
module Formatter {
  import opened Text

  predicate IsBlankChar(c: char) {
    c == ' ' || c == '\t'
  }

  function Trim(line: string): string {
    line[Span(line, IsBlankChar)..]
  }

  function Indentation(depth: nat): (s: string)
    ensures |s| == 4 * depth && forall c <- s :: c == ' '
  {
    seq(4 * depth, _ => ' ')
  }

  /** The depth a line is printed at, and the depth after it. */
  function DepthOf(trimmed: string, depth: nat): nat {
    if trimmed != [] && trimmed[0] == '}' && depth > 0 then depth - 1 else depth
  }

  function DepthAfter(trimmed: string, depth: nat): nat {
    DepthOf(trimmed, depth) + (if trimmed != [] && trimmed[|trimmed| - 1] == '{' then 1 else 0)
  }

  function FormatLine(line: string, depth: nat): string {
    Indentation(DepthOf(Trim(line), depth)) + Trim(line)
  }

  function FirstLine(s: string): (l: string)
    ensures '\n' !in l && l <= s
  {
    s[..Span(s, NotNewline)]
  }

  /** What `getline` leaves behind: the text after the first newline, if there is one. */
  function AfterLine(s: string): (r: string)
    requires s != []
    ensures |r| < |s|
  {
    var k := Span(s, NotNewline);
    if k < |s| then s[k + 1..] else ""
  }

  function FormatFrom(s: string, depth: nat): string
    decreases |s|, 1
  {
    if s == [] then "" else FormatRest(s, FirstLine(s), depth)
  }

  function FormatRest(s: string, line: string, depth: nat): string
    requires s != []
    decreases |s|, 0
  {
    FormatLine(line, depth) + "\n" + FormatFrom(AfterLine(s), DepthAfter(Trim(line), depth))
  }

  method GetLine(source: string, from: nat) returns (line: string, next: nat)
    requires from < |source|
    ensures line == FirstLine(source[from..])
    ensures from < next <= |source| && source[next..] == AfterLine(source[from..])
  {
    var k := from;
    while k < |source| && source[k] != '\n'
      invariant from <= k <= |source|
      invariant forall j :: from <= j < k ==> NotNewline(source[j])
    {
      k := k + 1;
    }
    SpanUnique(source[from..], NotNewline, k - from);
    line := source[from..k];
    next := if k < |source| then k + 1 else k;
  }

  /** One turn of the loop of lines 1795-1803: what it appends and the new depth. */
  method FormatStep(line: string, depth: nat) returns (out: string, indent: nat)
    ensures out == FormatLine(line, depth) + "\n"
    ensures indent == DepthAfter(Trim(line), depth)
  {
    var trimmed := Trim(line);
    indent := depth;
    if trimmed != [] && trimmed[0] == '}' {
      indent := if indent > 0 then indent - 1 else 0;
    }
    out := Indentation(indent) + trimmed + "\n";
    if trimmed != [] && trimmed[|trimmed| - 1] == '{' {
      indent := indent + 1;
    }
  }

  method FormatCode(source: string) returns (result: string)
    ensures result == FormatFrom(source, 0)
  {
    result := "";
    var indent: nat := 0;
    var pos: nat := 0;
    assert source[0..] == source;
    while pos < |source|
      invariant pos <= |source|
      invariant FormatFrom(source, 0) == result + FormatFrom(source[pos..], indent)
    {
      var line, next := GetLine(source, pos);
      FormatOnce(source[pos..], indent, result);
      var out;
      out, indent := FormatStep(line, indent);
      result := result + out;
      pos := next;
    }
  }

  lemma FormatOnce(s: string, depth: nat, result: string)
    requires s != []
    ensures result + FormatFrom(s, depth) ==
            result + (FormatLine(FirstLine(s), depth) + "\n")
              + FormatFrom(AfterLine(s), DepthAfter(Trim(FirstLine(s)), depth))
  {
    var out := FormatLine(FirstLine(s), depth) + "\n";
    var tail := FormatFrom(AfterLine(s), DepthAfter(Trim(FirstLine(s)), depth));
    assert result + (out + tail) == result + out + tail;
  }

  // ---- Idempotence ----

  lemma FirstLineOf(l: string, rest: string)
    requires '\n' !in l
    ensures FirstLine(l + "\n" + rest) == l && AfterLine(l + "\n" + rest) == rest
  {
    var s := l + "\n" + rest;
    SpanUnique(s, NotNewline, |l|);
    assert s[..|l|] == l && s[|l| + 1..] == rest;
  }

  /** Stripping undoes indenting. */
  lemma TrimFormatted(line: string, depth: nat)
    ensures Trim(FormatLine(line, depth)) == Trim(line)
  {
    var pad := Indentation(DepthOf(Trim(line), depth));
    SpanUnique(pad + Trim(line), IsBlankChar, |pad|);
  }

  lemma FormattedHasNoNewline(line: string, depth: nat)
    requires '\n' !in line
    ensures '\n' !in FormatLine(line, depth)
  {
  }

  lemma {:induction false} FormatIdempotentFrom(s: string, depth: nat)
    ensures FormatFrom(FormatFrom(s, depth), depth) == FormatFrom(s, depth)
    decreases |s|
  {
    if s != [] {
      var line := FirstLine(s);
      var after := DepthAfter(Trim(line), depth);
      FormatIdempotentFrom(AfterLine(s), after);
      TrimFormatted(line, depth);
      FormattedHasNoNewline(line, depth);
      FirstLineOf(FormatLine(line, depth), FormatFrom(AfterLine(s), after));
    }
  }

  /** `cmd_fmt` formats twice; once is the same. */
  lemma FormatIdempotent(s: string)
    ensures FormatFrom(FormatFrom(s, 0), 0) == FormatFrom(s, 0)
  {
    FormatIdempotentFrom(s, 0);
  }
}
