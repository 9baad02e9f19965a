/** String operations the page script relies on: JavaScript's `trim`,
    `toLowerCase` and `includes`, and the decimal rendering of a count
    inside a template literal. */
module Text {

  /** The characters `String.prototype.trim` strips: ECMAScript WhiteSpace
      (tab, vertical tab, form feed, space, no-break space, the byte order
      mark and the space separators) and LineTerminator (LF, CR, LS, PS). */
  predicate IsTrimmable(c: char): (b: bool)
    ensures c as int < 0x80 ==> (b <==> c == ' ' || '\t' <= c <= '\r')
    ensures b ==> !IsAsciiUpper(c)
  {
    c == '\t' || c == '\n' || c == '\U{B}' || c == '\U{C}' || c == '\r' || c == ' '
    || c == '\U{A0}' || c == '\U{1680}' || ('\U{2000}' <= c <= '\U{200A}')
    || c == '\U{2028}' || c == '\U{2029}' || c == '\U{202F}' || c == '\U{205F}'
    || c == '\U{3000}' || c == '\U{FEFF}'
  }

  predicate AllTrimmable(s: string) {
    forall k :: 0 <= k < |s| ==> IsTrimmable(s[k])
  }

  lemma AllTrimmableConcat(a: string, b: string)
    requires AllTrimmable(a) && AllTrimmable(b)
    ensures AllTrimmable(a + b)
  {
    assert forall k :: |a| <= k < |a + b| ==> (a + b)[k] == b[k - |a|];
  }

  /** Neither end of `s` is a trimmable character. */
  predicate Trimmed(s: string) {
    s == [] || (!IsTrimmable(s[0]) && !IsTrimmable(s[|s| - 1]))
  }

  predicate IsAsciiUpper(c: char) {
    'A' <= c <= 'Z'
  }

  /** `toLowerCase` on one character, for the ASCII letters. */
  function LowerChar(c: char): (d: char)
    ensures !IsAsciiUpper(d)
    ensures IsTrimmable(d) <==> IsTrimmable(c)
    ensures d == c || (IsAsciiUpper(c) && d as int == c as int + 32)
  {
    if IsAsciiUpper(c) then (c as int + 32) as char else c
  }

  function Lower(s: string): (r: string)
    ensures |r| == |s|
    ensures forall k :: 0 <= k < |r| ==> !IsAsciiUpper(r[k])
    ensures forall k :: 0 <= k < |s| ==> r[k] == LowerChar(s[k])
  {
    seq(|s|, k requires 0 <= k < |s| => LowerChar(s[k]))
  }

  /** Lower-casing twice is lower-casing once. */
  lemma LowerIdempotent(s: string)
    ensures Lower(Lower(s)) == Lower(s)
  {
    var once := Lower(s);
    forall k | 0 <= k < |s|
      ensures Lower(once)[k] == once[k]
    {
      assert !IsAsciiUpper(once[k]);
    }
  }

  lemma LowerConcat(a: string, b: string)
    ensures Lower(a + b) == Lower(a) + Lower(b)
  {
    assert forall k :: 0 <= k < |a + b| ==> Lower(a + b)[k] == (Lower(a) + Lower(b))[k];
  }

  /** Lower-casing leaves trimmable characters alone. */
  lemma LowerOfTrimmable(s: string)
    requires AllTrimmable(s)
    ensures Lower(s) == s
  {
    forall k | 0 <= k < |s|
      ensures Lower(s)[k] == s[k]
    {
      assert !IsAsciiUpper(s[k]);
    }
  }

  lemma LowerOfPadded(front: string, s: string, back: string)
    requires AllTrimmable(front) && AllTrimmable(back)
    ensures Lower(front + s + back) == front + Lower(s) + back
  {
    LowerOfTrimmable(front);
    LowerOfTrimmable(back);
    LowerConcat(front, s);
    LowerConcat(front + s, back);
  }

  /** The number of trimmable characters `s` starts with. */
  function LeadingTrimmable(s: string): (n: nat)
    ensures n <= |s|
    ensures forall k :: 0 <= k < n ==> IsTrimmable(s[k])
    ensures n < |s| ==> !IsTrimmable(s[n])
  {
    if s == [] || !IsTrimmable(s[0]) then 0 else 1 + LeadingTrimmable(s[1..])
  }

  /** The number of trimmable characters `s` ends with. */
  function TrailingTrimmable(s: string): (n: nat)
    ensures n <= |s|
    ensures forall k :: |s| - n <= k < |s| ==> IsTrimmable(s[k])
    ensures n < |s| ==> !IsTrimmable(s[|s| - 1 - n])
  {
    if s == [] || !IsTrimmable(s[|s| - 1]) then 0 else 1 + TrailingTrimmable(s[..|s| - 1])
  }

  /** `s.trim()`: `s` without its leading and trailing whitespace. */
  function Trim(s: string): (r: string)
    ensures Trimmed(r)
    ensures |r| <= |s|
  {
    var a := LeadingTrimmable(s);
    if a == |s| then []
    else
      var b := TrailingTrimmable(s);
      assert !IsTrimmable(s[a]);
      s[a..|s| - b]
  }

  /** Every string splits into trimmable text, its trim, and trimmable text. */
  lemma TrimDecomposes(s: string) returns (front: string, back: string)
    ensures AllTrimmable(front) && AllTrimmable(back)
    ensures s == front + Trim(s) + back
  {
    var a := LeadingTrimmable(s);
    if a == |s| {
      assert Trim(s) == [];
      front, back := s, [];
      assert s == front + [] + back;
    } else {
      var b := TrailingTrimmable(s);
      assert !IsTrimmable(s[a]);
      var e := |s| - b;
      assert Trim(s) == s[a..e];
      front, back := s[..a], s[e..];
      forall k | 0 <= k < |front|
        ensures IsTrimmable(front[k])
      {
        assert front[k] == s[k];
      }
      forall k | 0 <= k < |back|
        ensures IsTrimmable(back[k])
      {
        assert back[k] == s[e + k];
      }
      SliceParts(s, a, e);
    }
  }

  lemma SliceParts(s: string, a: nat, e: nat)
    requires a <= e <= |s|
    ensures s == s[..a] + s[a..e] + s[e..]
  {
  }

  lemma {:induction false} LeadingOf(front: string, rest: string)
    requires AllTrimmable(front)
    requires rest != [] && !IsTrimmable(rest[0])
    ensures LeadingTrimmable(front + rest) == |front|
  {
    if front != [] {
      assert (front + rest)[1..] == front[1..] + rest;
      LeadingOf(front[1..], rest);
    }
  }

  lemma {:induction false} TrailingOf(rest: string, back: string)
    requires AllTrimmable(back)
    requires rest != [] && !IsTrimmable(rest[|rest| - 1])
    ensures TrailingTrimmable(rest + back) == |back|
  {
    if back != [] {
      assert (rest + back)[..|rest + back| - 1] == rest + back[..|back| - 1];
      TrailingOf(rest, back[..|back| - 1]);
    }
  }

  /** Trim is determined by what it keeps: surrounding a trimmed string with
      whitespace and trimming gives back that string. */
  lemma TrimOfPadded(front: string, middle: string, back: string)
    requires AllTrimmable(front) && AllTrimmable(back) && Trimmed(middle)
    ensures Trim(front + middle + back) == middle
  {
    var s := front + middle + back;
    if middle == [] {
      assert AllTrimmable(s);
      assert LeadingTrimmable(s) == |s|;
    } else {
      assert s == front + (middle + back);
      LeadingOf(front, middle + back);
      assert s == (front + middle) + back;
      TrailingOf(front + middle, back);
      assert s[|front|..|s| - |back|] == middle;
    }
  }

  /** Whitespace added around a string does not change its trim. */
  lemma TrimIgnoresPadding(front: string, s: string, back: string)
    requires AllTrimmable(front) && AllTrimmable(back)
    ensures Trim(front + s + back) == Trim(s)
  {
    var f, b := TrimDecomposes(s);
    var middle := Trim(s);
    AllTrimmableConcat(front, f);
    AllTrimmableConcat(b, back);
    Regroup(front, f, middle, b, back);
    TrimOfPadded(front + f, middle, b + back);
  }

  lemma Regroup(a: string, x: string, m: string, y: string, c: string)
    ensures a + (x + m + y) + c == (a + x) + m + (y + c)
  {
  }

  lemma TrimIdempotent(s: string)
    ensures Trim(Trim(s)) == Trim(s)
  {
    TrimOfPadded([], Trim(s), []);
    assert [] + Trim(s) + [] == Trim(s);
  }

  /** `sub` occurs in `s` starting at index `i`. */
  predicate OccursAt(s: string, sub: string, i: int) {
    0 <= i && i + |sub| <= |s| && s[i..i + |sub|] == sub
  }

  predicate StartsWith(s: string, prefix: string) {
    |prefix| <= |s| && s[..|prefix|] == prefix
  }

  /** `s.includes(sub)`, scanning the start positions left to right. */
  predicate Includes(s: string, sub: string): (b: bool)
    ensures sub == [] ==> b
    ensures b ==> |sub| <= |s|
    decreases |s|
  {
    StartsWith(s, sub) || (s != [] && Includes(s[1..], sub))
  }

  /** `includes` holds exactly when `sub` occurs at some index of `s`. */
  lemma {:induction false} IncludesIffOccurs(s: string, sub: string)
    ensures Includes(s, sub) <==> exists i :: OccursAt(s, sub, i)
  {
    if StartsWith(s, sub) {
      assert OccursAt(s, sub, 0);
    } else if s != [] {
      IncludesIffOccurs(s[1..], sub);
      if exists i :: OccursAt(s[1..], sub, i) {
        var i :| OccursAt(s[1..], sub, i);
        assert s[1..][i..i + |sub|] == s[i + 1..i + 1 + |sub|];
        assert OccursAt(s, sub, i + 1);
      }
      if exists i :: OccursAt(s, sub, i) {
        var i :| OccursAt(s, sub, i);
        assert i != 0;
        assert s[1..][i - 1..i - 1 + |sub|] == s[i..i + |sub|];
        assert OccursAt(s[1..], sub, i - 1);
      }
    }
  }

  function DigitChar(d: nat): (c: char)
    requires d < 10
    ensures '0' <= c <= '9'
    ensures c as int - '0' as int == d
  {
    (d + '0' as int) as char
  }

  predicate IsDigit(c: char) {
    '0' <= c <= '9'
  }

  /** The decimal digits of `n`, as a number is rendered in a template literal. */
  function Decimal(n: nat): (r: string)
    ensures r != []
    ensures forall k :: 0 <= k < |r| ==> IsDigit(r[k])
    ensures r[0] == '0' ==> n == 0
    ensures n < 10 <==> |r| == 1
  {
    if n < 10 then [DigitChar(n)] else Decimal(n / 10) + [DigitChar(n % 10)]
  }

  /** The number a string of decimal digits denotes. */
  function DecimalValue(s: string): nat
    requires forall k :: 0 <= k < |s| ==> IsDigit(s[k])
  {
    if s == [] then 0
    else 10 * DecimalValue(s[..|s| - 1]) + DigitValue(s[|s| - 1])
  }

  function DigitValue(c: char): (d: nat)
    requires IsDigit(c)
    ensures d < 10
  {
    c as int - '0' as int
  }

  /** Reading back the rendered digits gives the number. */
  lemma {:induction false} DecimalRoundTrip(n: nat)
    ensures DecimalValue(Decimal(n)) == n
  {
    var r := Decimal(n);
    if n >= 10 {
      assert r[..|r| - 1] == Decimal(n / 10);
      DecimalRoundTrip(n / 10);
    }
  }
}
