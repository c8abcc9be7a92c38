/**
  JavaScript strings as the source sees them: sequences of UTF-16 code units
  (what `charCodeAt` returns), together with the few built-ins the core relies
  on: the `\s` character class, `trim`, `includes`, and the rendering of a
  non-negative integer by `Number.prototype.toString(radix)` / `String(n)`.
*/
module JsString {
  import opened Wrappers

  /** One UTF-16 code unit. */
  type CodeUnit = x: int | 0 <= x < 0x1_0000

  /** A JavaScript string value. */
  type Str = seq<CodeUnit>

  /** The UTF-16 encoding of a Dafny string literal (surrogate pairs above the BMP). */
  function Utf16(s: string): (r: Str)
    ensures |r| >= |s|
  {
    if s == [] then []
    else
      var c := s[0] as int;
      (if c < 0x1_0000 then [c]
       else [0xD800 + (c - 0x1_0000) / 0x400, 0xDC00 + (c - 0x1_0000) % 0x400])
      + Utf16(s[1..])
  }

  /**
    The code units matched by the regular-expression class `\s` and removed by
    `String.prototype.trim`: ECMAScript's WhiteSpace (tab, vertical tab, form
    feed, space, no-break space, byte-order mark and the other Unicode space
    separators) and LineTerminator (LF, CR, U+2028, U+2029).
  */
  predicate IsWhitespace(u: CodeUnit)
  {
    || u == 0x09 || u == 0x0A || u == 0x0B || u == 0x0C || u == 0x0D || u == 0x20
    || u == 0xA0 || u == 0x1680 || (0x2000 <= u <= 0x200A)
    || u == 0x2028 || u == 0x2029 || u == 0x202F || u == 0x205F || u == 0x3000 || u == 0xFEFF
  }

  /** Drops the leading whitespace of `s`. */
  function TrimStart(s: Str): (r: Str)
    ensures |r| <= |s| && r == s[|s| - |r|..]
    ensures forall k :: 0 <= k < |s| - |r| ==> IsWhitespace(s[k])
    ensures r == [] || !IsWhitespace(r[0])
  {
    if s != [] && IsWhitespace(s[0]) then TrimStart(s[1..]) else s
  }

  /** Drops the trailing whitespace of `s`. */
  function TrimEnd(s: Str): (r: Str)
    ensures |r| <= |s| && r == s[..|r|]
    ensures forall k :: |r| <= k < |s| ==> IsWhitespace(s[k])
    ensures r == [] || !IsWhitespace(r[|r| - 1])
  {
    if s != [] && IsWhitespace(s[|s| - 1]) then TrimEnd(s[..|s| - 1]) else s
  }

  /** `s.trim()`. */
  function Trim(s: Str): Str
  {
    TrimEnd(TrimStart(s))
  }

  /** A string trims to the empty string exactly when it is all whitespace. */
  lemma TrimEmpty(s: Str)
    ensures Trim(s) == [] <==> forall k :: 0 <= k < |s| ==> IsWhitespace(s[k])
  {
    var t := TrimStart(s);
    if t != [] {
      assert !IsWhitespace(s[|s| - |t|]);
      assert TrimEnd(t) != [] by {
        assert !IsWhitespace(t[0]);
      }
    }
  }

  /** `hay.includes(needle)`: `needle` occurs in `hay` at some offset. */
  predicate Includes(hay: Str, needle: Str)
  {
    exists i :: 0 <= i <= |hay| && needle <= hay[i..]
  }

  /** Powers, for the width of a fixed number of digits. */
  function Pow(b: nat, w: nat): (r: nat)
    ensures b >= 2 ==> r >= 1
  {
    if w == 0 then 1 else b * Pow(b, w - 1)
  }

  /** The lower-case digit JavaScript prints for a digit value. */
  function Digit(d: nat): (u: CodeUnit)
    requires d < 16
  {
    if d < 10 then 0x30 + d else 0x61 + (d - 10)
  }

  /** Whether `u` is a digit of radix `b` as `toString(b)` prints it (0-9, then a-f). */
  predicate IsRadixDigit(u: CodeUnit, b: nat)
  {
    (0x30 <= u < 0x30 + b && u <= 0x39) || (b > 10 && 0x61 <= u < 0x61 + (b - 10))
  }

  /** The value of a digit. */
  function DigitValue(u: CodeUnit): int
  {
    if u <= 0x39 then u - 0x30 else u - 0x61 + 10
  }

  lemma DigitRoundTrip(d: nat, b: nat)
    requires d < b <= 16
    ensures IsRadixDigit(Digit(d), b) && DigitValue(Digit(d)) == d
  {
  }

  lemma DivFacts(n: nat, b: nat)
    requires 2 <= b
    ensures n == n / b * b + n % b && 0 <= n % b < b
    ensures n >= b ==> 1 <= n / b < n
  {
  }

  /**
    `n.toString(b)` for a non-negative integer: the shortest digit string,
    most significant digit first, `"0"` for zero.
  */
  function ToRadix(n: nat, b: nat): (r: Str)
    requires 2 <= b <= 16
    ensures |r| >= 1
    ensures forall k :: 0 <= k < |r| ==> IsRadixDigit(r[k], b)
    ensures |r| > 1 ==> r[0] != 0x30
  {
    if n < b then [Digit(n)]
    else
      DivFacts(n, b);
      ToRadix(n / b, b) + [Digit(n % b)]
  }

  /** Reads back a string of radix-`b` digits (`parseInt(s, b)` on valid input). */
  function ParseRadix(s: Str, b: nat): int
  {
    if s == [] then 0 else ParseRadix(s[..|s| - 1], b) * b + DigitValue(s[|s| - 1])
  }

  /** Reading back what `toString(b)` printed gives the number. */
  lemma {:induction false} ParseToRadix(n: nat, b: nat)
    requires 2 <= b <= 16
    ensures ParseRadix(ToRadix(n, b), b) == n
  {
    var r := ToRadix(n, b);
    if n < b {
      DigitRoundTrip(n, b);
      assert r[..0] == [];
    } else {
      DivFacts(n, b);
      ParseToRadix(n / b, b);
      DigitRoundTrip(n % b, b);
      assert r[..|r| - 1] == ToRadix(n / b, b);
    }
  }

  /** Different numbers print differently: `String(i)` is injective. */
  lemma ToRadixInjective(m: nat, n: nat, b: nat)
    requires 2 <= b <= 16
    requires ToRadix(m, b) == ToRadix(n, b)
    ensures m == n
  {
    ParseToRadix(m, b);
    ParseToRadix(n, b);
  }

  lemma MulMono(x: nat, y: nat, b: nat)
    requires x <= y
    ensures x * b <= y * b
  {
  }

  lemma DivBound(n: nat, b: nat, p: nat)
    requires 2 <= b && n < b * p
    ensures n / b < p
  {
    if n / b >= p {
      MulMono(p, n / b, b);
      DivFacts(n, b);
    }
  }

  /** A number below `b^w` needs at most `w` digits. */
  lemma {:induction false} ToRadixLength(n: nat, b: nat, w: nat)
    requires 2 <= b <= 16 && 1 <= w && n < Pow(b, w)
    ensures |ToRadix(n, b)| <= w
  {
    if n >= b {
      DivFacts(n, b);
      DivBound(n, b, Pow(b, w - 1));
      ToRadixLength(n / b, b, w - 1);
    }
  }

  /** `k` copies of the digit zero. */
  function Zeros(k: nat): (r: Str)
    ensures |r| == k && forall j :: 0 <= j < k ==> r[j] == 0x30
  {
    seq(k, _ => 0x30)
  }

  /** Leading zeros do not change the value read back. */
  lemma {:induction false} ParseLeadingZeros(k: nat, s: Str, b: nat)
    ensures ParseRadix(Zeros(k) + s, b) == ParseRadix(s, b)
    decreases |s|, k
  {
    if s == [] {
      if k > 0 {
        assert (Zeros(k) + s)[..k - 1] == Zeros(k - 1) + s;
        ParseLeadingZeros(k - 1, s, b);
      }
    } else {
      assert (Zeros(k) + s)[..|Zeros(k) + s| - 1] == Zeros(k) + s[..|s| - 1];
      ParseLeadingZeros(k, s[..|s| - 1], b);
    }
  }
}
