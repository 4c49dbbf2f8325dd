/** The JavaScript string operations the core relies on: `trim`, `toUpperCase`,
    `includes` and the decimal rendering of a number. */
module Text {

  /** ECMAScript WhiteSpace and LineTerminator code points, the set `String.prototype.trim` strips. */
  predicate IsSpace(c: char) {
    c == '\t' || c == '\n' || c == '\U{B}' || c == '\U{C}' || c == '\r' || c == ' '
    || c == '\U{A0}' || c == '\U{1680}' || ('\U{2000}' <= c <= '\U{200A}')
    || c == '\U{2028}' || c == '\U{2029}' || c == '\U{202F}' || c == '\U{205F}'
    || c == '\U{3000}' || c == '\U{FEFF}'
  }

  predicate AllSpace(s: string) {
    forall i :: 0 <= i < |s| ==> IsSpace(s[i])
  }

  /** How many characters `trimStart` cuts from the front. */
  function LeadingSpaces(s: string): (n: nat)
    ensures n <= |s|
    ensures forall i :: 0 <= i < n ==> IsSpace(s[i])
    ensures n < |s| ==> !IsSpace(s[n])
  {
    if |s| > 0 && IsSpace(s[0]) then 1 + LeadingSpaces(s[1..]) else 0
  }

  /** Where `trimEnd` cuts the string: everything from here on is white space. */
  function TrailingStart(s: string): (n: nat)
    ensures n <= |s|
    ensures forall i :: n <= i < |s| ==> IsSpace(s[i])
    ensures n > 0 ==> !IsSpace(s[n - 1])
  {
    if |s| > 0 && IsSpace(s[|s| - 1]) then TrailingStart(s[..|s| - 1]) else |s|
  }

  /** `s.trim()`. */
  function Trim(s: string): string {
    var k := LeadingSpaces(s);
    if k == |s| then []
    else
      assert !IsSpace(s[k]);
      s[k..TrailingStart(s)]
  }

  predicate Trimmed(s: string) {
    s == [] || (!IsSpace(s[0]) && !IsSpace(s[|s| - 1]))
  }

  /** The trimmed string has no space at either end and is no longer than the input. */
  lemma TrimmedTrim(s: string)
    ensures Trimmed(Trim(s)) && |Trim(s)| <= |s|
  {
  }

  /** The trimmed string is the contiguous piece of the input that follows the leading
      white space, and only white space follows it. */
  lemma TrimShape(s: string)
    ensures LeadingSpaces(s) + |Trim(s)| <= |s|
    ensures Trim(s) == s[LeadingSpaces(s)..LeadingSpaces(s) + |Trim(s)|]
    ensures AllSpace(s[..LeadingSpaces(s)])
    ensures AllSpace(s[LeadingSpaces(s) + |Trim(s)|..])
  {
    var k := LeadingSpaces(s);
    var e := if k == |s| then k else TrailingStart(s);
    assert Trim(s) == s[k..e];
    var rest := s[e..];
    forall i | 0 <= i < |rest| ensures IsSpace(rest[i]) {
      assert rest[i] == s[e + i];
    }
  }

  /** Trimming is idempotent. */
  lemma {:induction false} TrimIdempotent(s: string)
    ensures Trim(Trim(s)) == Trim(s)
  {
    TrimmedTrim(s);
    TrimTrimmed(Trim(s));
  }

  /** A string with no space at either end is its own trim. */
  lemma TrimTrimmed(s: string)
    requires Trimmed(s)
    ensures Trim(s) == s
  {
    if s != [] {
      assert LeadingSpaces(s) == 0 && TrailingStart(s) == |s|;
    }
  }

  /** `s.trim()` is empty exactly when `s` is all white space. */
  lemma {:induction false} TrimEmptyIff(s: string)
    ensures Trim(s) == [] <==> AllSpace(s)
  {
    TrimShape(s);
    if Trim(s) != [] {
      assert !IsSpace(s[LeadingSpaces(s)]);
    }
  }

  /** `c.toUpperCase()` restricted to ASCII letters. */
  function UpperChar(c: char): char {
    if 'a' <= c <= 'z' then (c as int - 32) as char else c
  }

  /** `s.toUpperCase()` (ASCII case mapping). */
  function Upper(s: string): (r: string)
    ensures |r| == |s|
  {
    seq(|s|, i requires 0 <= i < |s| => UpperChar(s[i]))
  }

  /** `s.includes(sub)`. */
  predicate Contains(s: string, sub: string)
    decreases |s|
  {
    |sub| <= |s| && (s[..|sub|] == sub || (|s| > 0 && Contains(s[1..], sub)))
  }

  function DecimalDigit(d: nat): char
    requires d < 10
  {
    ('0' as int + d) as char
  }

  /** `n.toString()` for a non-negative integer. */
  function Decimal(n: nat): (r: string)
    ensures |r| > 0
    ensures forall i :: 0 <= i < |r| ==> '0' <= r[i] <= '9'
  {
    if n < 10 then [DecimalDigit(n)] else Decimal(n / 10) + [DecimalDigit(n % 10)]
  }
}
