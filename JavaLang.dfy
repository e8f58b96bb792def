/** The few pieces of Java's `String` and `int` semantics that the game relies on:
    `trim`, `toLowerCase`, `startsWith`, `repeat`, and the truncating `/` and `%`. */
module JavaLang {

  function Abs(x: int): nat { if x < 0 then -x else x }

  function Max(a: int, b: int): int { if a < b then b else a }

  /** `/` on Java integers: the quotient is truncated toward zero, so the
      remainder left over has the sign of the dividend (or is zero). */
  function JavaDiv(a: int, b: int): (q: int)
    requires b != 0
    ensures Abs(a - q * b) < Abs(b)
    ensures a - q * b == 0 || (a - q * b < 0 <==> a < 0)
    ensures a >= 0 && b > 0 ==> q == a / b
  {
    var m := Abs(a) / Abs(b);
    TruncatedDivision(a, b, m);
    if (a < 0) == (b < 0) then m else -m
  }

  /** The remainder left by the truncated quotient `m` or `-m`. */
  lemma TruncatedDivision(a: int, b: int, m: int)
    requires b != 0 && m == Abs(a) / Abs(b)
    ensures var q := if (a < 0) == (b < 0) then m else -m;
      a - q * b == if a < 0 then -(Abs(a) % Abs(b)) else Abs(a) % Abs(b)
  {
    var q := if (a < 0) == (b < 0) then m else -m;
    var n := Abs(b);
    assert Abs(a) == m * n + Abs(a) % n;
    if b < 0 {
      assert q * b == (-q) * n;
    } else {
      assert q * b == q * n;
    }
    assert q * b == if a < 0 then -(m * n) else m * n;
  }

  /** `%` on Java integers: `a == JavaDiv(a, b) * b + JavaRem(a, b)`. */
  function JavaRem(a: int, b: int): (r: int)
    requires b != 0
    ensures Abs(r) < Abs(b)
    ensures r == 0 || (r < 0 <==> a < 0)
    ensures a >= 0 && b > 0 ==> r == a % b
    ensures (a - r) % b == 0
  {
    var q := JavaDiv(a, b);
    MultipleRemainder(q, b);
    a - q * b
  }

  /** A multiple of `b` leaves no remainder. */
  lemma MultipleRemainder(q: int, b: int)
    requires b != 0
    ensures (q * b) % b == 0
  {
    var d := (q * b) / b;
    var e := q - d;
    assert (q * b) % b == q * b - d * b;
    assert q * b - d * b == e * b;
    if e != 0 {
      ProductAtLeast(e, b);
      assert false;
    }
  }

  /** A non-zero multiple of `b` is at least `b` in magnitude. */
  lemma ProductAtLeast(e: int, b: int)
    requires e != 0 && b != 0
    ensures Abs(e * b) >= Abs(b)
  {
    var m: int, n: int := Abs(e), Abs(b);
    assert m * n == n + (m - 1) * n;
    NonNegativeProduct(m - 1, n);
    if (e < 0) == (b < 0) {
      assert e * b == m * n;
    } else {
      assert e * b == -(m * n);
    }
  }

  lemma NonNegativeProduct(x: nat, y: nat)
    ensures x * y >= 0
  {
  }

  /** The characters `String.trim` removes: code points at or below U+0020. */
  predicate IsBlank(c: char) { c <= ' ' }

  /** Number of blanks `s` starts with. */
  function LeadingBlanks(s: string): (n: nat)
    ensures n <= |s|
    ensures forall k :: 0 <= k < n ==> IsBlank(s[k])
    ensures n == |s| || !IsBlank(s[n])
  {
    if s != [] && IsBlank(s[0]) then 1 + LeadingBlanks(s[1..]) else 0
  }

  /** Length of `s` without its trailing blanks. */
  function KeptLength(s: string): (n: nat)
    ensures n <= |s|
    ensures forall k :: n <= k < |s| ==> IsBlank(s[k])
    ensures n == 0 || !IsBlank(s[n - 1])
  {
    if s != [] && IsBlank(s[|s| - 1]) then
      var n := KeptLength(s[..|s| - 1]);
      assert forall k :: n <= k < |s| - 1 ==> s[k] == s[..|s| - 1][k];
      n
    else |s|
  }

  /** `r` is `s[i..i + |r|]` and every character of `s` outside that slice is blank. */
  predicate TrimmedAt(s: string, r: string, i: int)
  {
    0 <= i <= |s| - |r| && r == s[i..i + |r|]
    && (forall k :: 0 <= k < i ==> IsBlank(s[k]))
    && (forall k :: i + |r| <= k < |s| ==> IsBlank(s[k]))
  }

  /** `String.trim`: the result is a contiguous slice of `s` that neither starts nor
      ends with a blank, and everything cut off on either side is blank. */
  function Trim(s: string): (r: string)
    ensures r == [] || (!IsBlank(r[0]) && !IsBlank(r[|r| - 1]))
    ensures exists i :: TrimmedAt(s, r, i)
  {
    var i := LeadingBlanks(s);
    var j := KeptLength(s);
    if i < j then
      assert TrimmedAt(s, s[i..j], i);
      s[i..j]
    else
      assert TrimmedAt(s, [], j);
      []
  }

  /** Lower-cases one character; only the ASCII letters `A`..`Z` are mapped. */
  predicate IsUpperAscii(c: char) { 'A' <= c <= 'Z' }

  function LowerChar(c: char): char
  {
    if IsUpperAscii(c) then (c as int + 32) as char else c
  }

  /** `String.toLowerCase`, restricted to ASCII: same length, each character
      lower-cased in place, and no upper-case ASCII letter is left. */
  function ToLower(s: string): (r: string)
    ensures |r| == |s|
    ensures forall i :: 0 <= i < |s| ==> r[i] == LowerChar(s[i])
    ensures forall i :: 0 <= i < |r| ==> !IsUpperAscii(r[i])
  {
    if s == [] then [] else [LowerChar(s[0])] + ToLower(s[1..])
  }

  /** Lower-casing a lower-cased string changes nothing. */
  lemma ToLowerIdempotent(s: string)
    ensures ToLower(ToLower(s)) == ToLower(s)
  {
    var t := ToLower(s);
    assert forall i :: 0 <= i < |t| ==> ToLower(t)[i] == t[i];
  }

  /** `String.startsWith`. */
  predicate StartsWith(s: string, prefix: string)
    ensures StartsWith(s, prefix) <==> exists rest :: s == prefix + rest
  {
    assert |prefix| <= |s| && s[..|prefix|] == prefix ==> s == prefix + s[|prefix|..];
    |prefix| <= |s| && s[..|prefix|] == prefix
  }

  /** `" ".repeat(n)` for a count that is never negative. */
  function Spaces(n: nat): (r: string)
    ensures |r| == n
    ensures forall i :: 0 <= i < n ==> r[i] == ' '
  {
    if n == 0 then [] else [' '] + Spaces(n - 1)
  }
}
