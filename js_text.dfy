/** The two pieces of JavaScript string behaviour the task store relies on:
    String.prototype.trim, and the decimal text of a non-negative integer
    that a template literal such as `${count}` produces. */
module JsText {

  /** The code points String.prototype.trim strips: the WhiteSpace and
      LineTerminator productions of the ECMAScript Language Specification
      (TAB, LF, VT, FF, CR, SPACE, NO-BREAK SPACE, the other Unicode "Zs"
      space separators, LINE SEPARATOR, PARAGRAPH SEPARATOR and the
      ZERO WIDTH NO-BREAK SPACE U+FEFF). */
  predicate IsWhitespace(c: char)
    ensures c == ' ' || c == '\t' || c == '\n' || c == '\r' ==> IsWhitespace(c)
    ensures ('0' <= c <= '9') || ('A' <= c <= 'Z') || ('a' <= c <= 'z') ==> !IsWhitespace(c)
  {
    var n := c as int;
    (0x09 <= n <= 0x0D) || n == 0x20 || n == 0xA0 || n == 0x1680
    || (0x2000 <= n <= 0x200A) || n == 0x2028 || n == 0x2029
    || n == 0x202F || n == 0x205F || n == 0x3000 || n == 0xFEFF
  }

  predicate AllWhitespace(s: string) {
    forall i :: 0 <= i < |s| ==> IsWhitespace(s[i])
  }

  /** Neither end of `s` is whitespace (true of the empty string). */
  predicate Trimmed(s: string) {
    s == [] || (!IsWhitespace(s[0]) && !IsWhitespace(s[|s| - 1]))
  }

  /** How many whitespace characters `s` starts with: all of the first `n`
      are whitespace and the next one, if any, is not. */
  function LeadingWhitespace(s: string): (n: nat)
    ensures n <= |s|
    ensures forall i :: 0 <= i < n ==> IsWhitespace(s[i])
    ensures n < |s| ==> !IsWhitespace(s[n])
  {
    if s != [] && IsWhitespace(s[0]) then 1 + LeadingWhitespace(s[1..]) else 0
  }

  /** How many whitespace characters `s` ends with: all of the last `n` are
      whitespace and the one before them, if any, is not. */
  function TrailingWhitespace(s: string): (n: nat)
    ensures n <= |s|
    ensures forall i :: |s| - n <= i < |s| ==> IsWhitespace(s[i])
    ensures n < |s| ==> !IsWhitespace(s[|s| - 1 - n])
  {
    if s != [] && IsWhitespace(s[|s| - 1]) then 1 + TrailingWhitespace(s[..|s| - 1]) else 0
  }

  /** String.prototype.trim: the input without its leading and trailing
      whitespace. No whitespace is left at either end of the result;
      TrimSplit and TrimOfPadded say what is removed. */
  function Trim(s: string): (r: string)
    ensures Trimmed(r)
  {
    var a := LeadingWhitespace(s);
    if a == |s| then [] else s[a..|s| - TrailingWhitespace(s)]
  }

  /** The input is the trimmed text framed by whitespace on both sides. */
  lemma TrimSplit(s: string) returns (p: string, q: string)
    ensures AllWhitespace(p) && AllWhitespace(q)
    ensures s == p + Trim(s) + q
  {
    var a := LeadingWhitespace(s);
    if a == |s| {
      p, q := s, [];
      assert s == p + [] + q;
    } else {
      var b := |s| - TrailingWhitespace(s);
      p, q := s[..a], s[b..];
      forall i | 0 <= i < |p| ensures IsWhitespace(p[i]) { assert p[i] == s[i]; }
      forall i | 0 <= i < |q| ensures IsWhitespace(q[i]) { assert q[i] == s[b + i]; }
      assert s == p + s[a..b] + q;
    }
  }

  /** Trim is determined by that framing: whatever whitespace surrounds a
      string with no whitespace at its ends, Trim returns exactly that string. */
  lemma TrimOfPadded(p: string, t: string, q: string)
    requires AllWhitespace(p) && AllWhitespace(q) && Trimmed(t)
    ensures Trim(p + t + q) == t
  {
    var s := p + t + q;
    var a := LeadingWhitespace(s);
    if t == [] {
      assert forall i :: 0 <= i < |s| ==> s[i] == if i < |p| then p[i] else q[i - |p|];
    } else {
      var m := TrailingWhitespace(s);
      assert s[|p|] == t[0] && s[|p| + |t| - 1] == t[|t| - 1];
      // so the leading run stops exactly where t starts, and the trailing
      // run exactly where t ends
      assert s[|p|..|s| - |q|] == t;
    }
  }

  /** Trim yields the empty string exactly when the input is all whitespace
      (the "blank input" test of the task store). */
  lemma TrimEmptyIff(s: string)
    ensures Trim(s) == [] <==> AllWhitespace(s)
  {
    if AllWhitespace(s) {
      assert [] + [] + s == s;
      TrimOfPadded([], [], s);
    } else {
      // a non-whitespace character of s must lie in the part Trim keeps
      var p, q := TrimSplit(s);
    }
  }

  /** A string with no whitespace at its ends is its own trim. */
  lemma TrimOfTrimmed(t: string)
    requires Trimmed(t)
    ensures Trim(t) == t
  {
    assert [] + t + [] == t;
    TrimOfPadded([], t, []);
  }

  /** Trimming twice is trimming once. */
  lemma TrimIdempotent(s: string)
    ensures Trim(Trim(s)) == Trim(s)
  {
    TrimOfTrimmed(Trim(s));
  }

  // ---------------------------------------------------------------------
  // Decimal text of a non-negative integer

  predicate IsDigit(c: char) {
    '0' <= c <= '9'
  }

  function DigitChar(d: nat): (c: char)
    requires d < 10
    ensures IsDigit(c)
  {
    (48 + d) as char
  }

  function DigitValue(c: char): nat
    requires IsDigit(c)
  {
    c as int - 48
  }

  /** The text JavaScript gives a non-negative integer Number: its decimal
      digits, most significant first, without leading zeros. */
  function DecimalString(n: nat): (s: string)
    ensures |s| >= 1
    ensures forall i :: 0 <= i < |s| ==> IsDigit(s[i])
    ensures s[0] == '0' ==> s == "0"
    decreases n
  {
    if n < 10 then [DigitChar(n)] else DecimalString(n / 10) + [DigitChar(n % 10)]
  }

  /** The number a string of decimal digits denotes. */
  function DecimalValue(s: string): nat
    requires forall i :: 0 <= i < |s| ==> IsDigit(s[i])
  {
    if s == [] then 0 else DecimalValue(s[..|s| - 1]) * 10 + DigitValue(s[|s| - 1])
  }

  /** Reading the decimal text back gives the number. */
  lemma {:induction false} DecimalRoundTrip(n: nat)
    ensures DecimalValue(DecimalString(n)) == n
    decreases n
  {
    var s := DecimalString(n);
    if n < 10 {
      assert s[..0] == [];
    } else {
      assert s[..|s| - 1] == DecimalString(n / 10);
      DecimalRoundTrip(n / 10);
    }
  }
}
