/** Characters and strings as the compiler sees them: the "C" locale classes and the
    longest-prefix scans that every lexer loop performs. */
module Text {

  datatype Option<+T> = None | Some(value: T)

  predicate IsSpace(c: char) {
    c == ' ' || '\t' <= c <= '\r'
  }

  predicate IsDigit(c: char) {
    '0' <= c <= '9'
  }

  predicate IsAlpha(c: char) {
    'a' <= c <= 'z' || 'A' <= c <= 'Z'
  }

  predicate IsWordStart(c: char) {
    IsAlpha(c) || c == '_'
  }

  predicate IsWord(c: char) {
    IsWordStart(c) || IsDigit(c)
  }

  predicate NotNewline(c: char) {
    c != '\n'
  }

  /** Length of the longest prefix of `s` whose characters all satisfy `p`. */
  function Span(s: string, p: char -> bool): (n: nat)
    ensures n <= |s|
    ensures forall i :: 0 <= i < n ==> p(s[i])
    ensures n < |s| ==> !p(s[n])
  {
    if s == [] || !p(s[0]) then 0 else 1 + Span(s[1..], p)
  }

  /** The three facts above determine `Span`. */
  lemma {:induction false} SpanUnique(s: string, p: char -> bool, n: nat)
    requires n <= |s|
    requires forall i :: 0 <= i < n ==> p(s[i])
    requires n < |s| ==> !p(s[n])
    ensures Span(s, p) == n
  {
    if n > 0 {
      SpanUnique(s[1..], p, n - 1);
    }
  }

  /** A scan is decided by the characters it passes and the one it stops at. */
  lemma SpanLocal(s: string, t: string, p: char -> bool)
    requires Span(s, p) <= |t|
    requires forall i :: 0 <= i < Span(s, p) ==> t[i] == s[i]
    requires Span(s, p) < |t| ==> !p(t[Span(s, p)])
    ensures Span(t, p) == Span(s, p)
  {
    SpanUnique(t, p, Span(s, p));
  }

  function CountNewlines(s: string): nat {
    if s == [] then 0 else (if s[0] == '\n' then 1 else 0) + CountNewlines(s[1..])
  }

  lemma {:induction false} CountNewlinesConcat(a: string, b: string)
    ensures CountNewlines(a + b) == CountNewlines(a) + CountNewlines(b)
  {
    if a == [] {
      assert a + b == b;
    } else {
      assert (a + b)[1..] == a[1..] + b;
      CountNewlinesConcat(a[1..], b);
    }
  }

  lemma {:induction false} CountNewlinesNone(s: string)
    requires '\n' !in s
    ensures CountNewlines(s) == 0
  {
    if s != [] {
      CountNewlinesNone(s[1..]);
    }
  }
}
