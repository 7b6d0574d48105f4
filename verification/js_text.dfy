// The part of JavaScript's string semantics the generator relies on:
// `String.prototype.trim`, and the test that a trimmed comment is
// non-empty (an empty string is falsy).
module JsText {

  // The code points `trim` removes: ECMAScript's WhiteSpace (tab, vertical
  // tab, form feed, space, no-break space, zero-width no-break space and the
  // Unicode space separators) and LineTerminator (LF, CR, U+2028, U+2029).
  predicate IsJsWhitespace(c: char) {
    var n := c as int;
    || n == 0x09 || n == 0x0A || n == 0x0B || n == 0x0C || n == 0x0D
    || n == 0x20 || n == 0xA0 || n == 0x1680 || (0x2000 <= n <= 0x200A)
    || n == 0x2028 || n == 0x2029 || n == 0x202F || n == 0x205F
    || n == 0x3000 || n == 0xFEFF
  }

  predicate AllWhitespace(s: string) {
    forall i :: 0 <= i < |s| ==> IsJsWhitespace(s[i])
  }

  // Length of the whitespace run at the start of `s`.
  function LeadingWhitespace(s: string): (n: nat)
    ensures n <= |s|
    ensures AllWhitespace(s[..n])
    ensures n < |s| ==> !IsJsWhitespace(s[n])
  {
    if |s| > 0 && IsJsWhitespace(s[0]) then
      var m := LeadingWhitespace(s[1..]);
      assert s[..1 + m] == [s[0]] + s[1..][..m];
      1 + m
    else
      0
  }

  // Length of the whitespace run at the end of `s`.
  function TrailingWhitespace(s: string): (n: nat)
    ensures n <= |s|
    ensures AllWhitespace(s[|s| - n..])
    ensures n < |s| ==> !IsJsWhitespace(s[|s| - 1 - n])
  {
    if |s| > 0 && IsJsWhitespace(s[|s| - 1]) then
      var m := TrailingWhitespace(s[..|s| - 1]);
      TrailingRunGrows(s, m);
      1 + m
    else
      0
  }

  lemma TrailingRunGrows(s: string, m: nat)
    requires |s| > 0 && IsJsWhitespace(s[|s| - 1])
    requires m <= |s| - 1 && AllWhitespace(s[..|s| - 1][|s| - 1 - m..])
    ensures AllWhitespace(s[|s| - (1 + m)..])
  {
    assert s[|s| - (1 + m)..] == s[..|s| - 1][|s| - 1 - m..] + [s[|s| - 1]];
    AllWhitespaceConcat(s[..|s| - 1][|s| - 1 - m..], [s[|s| - 1]]);
  }

  // `r` is `s` with the first `k` characters and everything after
  // `k + |r|` removed, and all that was removed is whitespace.
  predicate StripsTo(s: string, k: int, r: string) {
    && 0 <= k && k + |r| <= |s|
    && s[k..k + |r|] == r
    && AllWhitespace(s[..k])
    && AllWhitespace(s[k + |r|..])
  }

  lemma AllWhitespaceConcat(a: string, b: string)
    requires AllWhitespace(a) && AllWhitespace(b)
    ensures AllWhitespace(a + b)
  {
    forall i | 0 <= i < |a + b|
      ensures IsJsWhitespace((a + b)[i])
    {
      if i >= |a| {
        assert (a + b)[i] == b[i - |a|];
      }
    }
  }

  // `String.prototype.trim`: strip leading, then trailing whitespace.
  function Trim(s: string): (r: string)
    ensures exists k :: StripsTo(s, k, r)
    ensures |r| > 0 ==> !IsJsWhitespace(r[0]) && !IsJsWhitespace(r[|r| - 1])
    ensures r == [] <==> AllWhitespace(s)
  {
    var n := LeadingWhitespace(s);
    var rest := s[n..];
    var m := TrailingWhitespace(rest);
    var r := rest[..|rest| - m];
    TrimParts(s, n, rest, m, r);
    r
  }

  // The facts `Trim` needs about a cut of `s` into a whitespace prefix of
  // length `n`, the kept part `r`, and a whitespace suffix of length `m`,
  // where neither run can be extended.
  lemma TrimParts(s: string, n: nat, rest: string, m: nat, r: string)
    requires n <= |s| && rest == s[n..] && m <= |rest| && r == rest[..|rest| - m]
    requires AllWhitespace(s[..n]) && (n < |s| ==> !IsJsWhitespace(s[n]))
    requires AllWhitespace(rest[|rest| - m..]) && (m < |rest| ==> !IsJsWhitespace(rest[|rest| - 1 - m]))
    ensures StripsTo(s, n, r)
    ensures |r| > 0 ==> !IsJsWhitespace(r[0]) && !IsJsWhitespace(r[|r| - 1])
    ensures r == [] <==> AllWhitespace(s)
  {
    assert s[n..n + |r|] == r;
    assert s[n + |r|..] == rest[|rest| - m..];
    if |r| > 0 {
      assert r[0] == s[n];
      assert r[|r| - 1] == rest[|rest| - 1 - m];
    } else {
      assert s == s[..n] + rest[|rest| - m..];
      AllWhitespaceConcat(s[..n], rest[|rest| - m..]);
    }
  }

  // The comment gets no doc block: it is empty or all whitespace, which
  // by the last ensures of `Trim` is exactly when trimming leaves nothing.
  predicate IsBlank(s: string) {
    AllWhitespace(s)
  }


  // The gate as the source writes it: a comment is blank exactly when
  // `trim` leaves nothing.
  lemma BlankIffTrimEmpty(s: string)
    ensures IsBlank(s) <==> Trim(s) == []
  {
  }

}
