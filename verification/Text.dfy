/**
 JavaScript strings as sequences of UTF-16 code units, their UTF-8 size, decimal numerals and
 the joining of lines and fields.
 */
module Text {

  type CodeUnit = u: int | 0 <= u < 0x10000
  type Byte = b: int | 0 <= b < 0x100
  type Str = seq<CodeUnit>

  /** Number.MAX_SAFE_INTEGER */
  const MAX_SAFE_INTEGER: nat := 9007199254740991

  /** An ASCII literal. */
  function Lit(s: string): (t: Str)
    ensures |t| == |s| && forall i | 0 <= i < |t| :: t[i] < 0x80
  {
    seq(|s|, i requires 0 <= i < |s| => if s[i] as int < 0x80 then s[i] as int else 0x3F)
  }

  const NEWLINE: CodeUnit := 0x0A
  const SPACE: CodeUnit := 0x20
  const COMMA: CodeUnit := 0x2C

  predicate IsDigits(s: Str) {
    forall i | 0 <= i < |s| :: 0x30 <= s[i] <= 0x39
  }

  predicate IsHigh(u: CodeUnit) {
    0xD800 <= u <= 0xDBFF
  }

  predicate IsLow(u: CodeUnit) {
    0xDC00 <= u <= 0xDFFF
  }

  /** The text starts with a surrogate pair. */
  predicate StartsPair(s: Str) {
    |s| >= 2 && IsHigh(s[0]) && IsLow(s[1])
  }

  // ---------------------------------------------------------------- UTF-8 size

  /** UTF-8 bytes of one code unit outside a surrogate pair; a lone surrogate becomes U+FFFD. */
  function UnitBytes(u: CodeUnit): nat {
    if u < 0x80 then 1 else if u < 0x800 then 2 else 3
  }

  function Utf8Length(s: Str): nat {
    if s == [] then 0
    else if StartsPair(s) then 4 + Utf8Length(s[2..])
    else UnitBytes(s[0]) + Utf8Length(s[1..])
  }

  /** Joining at a code unit below the surrogates never merges two surrogates, so sizes add up. */
  lemma {:induction false} Utf8LengthAt(a: Str, c: CodeUnit, b: Str)
    requires c < 0x80
    ensures Utf8Length(a + [c] + b) == Utf8Length(a) + 1 + Utf8Length(b)
  {
    var whole := a + [c] + b;
    if a == [] {
      assert whole[1..] == b;
    } else if StartsPair(a) {
      assert whole[2..] == a[2..] + [c] + b;
      Utf8LengthAt(a[2..], c, b);
    } else {
      assert !StartsPair(whole) by {
        if |a| >= 2 {
          assert whole[1] == a[1];
        }
      }
      assert whole[1..] == a[1..] + [c] + b;
      Utf8LengthAt(a[1..], c, b);
    }
  }

  // ---------------------------------------------------------------- joining

  function Join(parts: seq<Str>, sep: CodeUnit): Str {
    if parts == [] then []
    else if |parts| == 1 then parts[0]
    else parts[0] + [sep] + Join(parts[1..], sep)
  }

  /** Bytes of each line with the line break before it. */
  function LineBytes(lines: seq<Str>): nat {
    if lines == [] then 0 else 1 + Utf8Length(lines[0]) + LineBytes(lines[1..])
  }

  lemma {:induction false} JoinedBytes(lines: seq<Str>)
    requires lines != []
    ensures Utf8Length(Join(lines, NEWLINE)) + 1 == LineBytes(lines)
  {
    if |lines| > 1 {
      Utf8LengthAt(lines[0], NEWLINE, Join(lines[1..], NEWLINE));
      JoinedBytes(lines[1..]);
    }
  }

  lemma {:induction false} LineBytesConcat(a: seq<Str>, b: seq<Str>)
    ensures LineBytes(a + b) == LineBytes(a) + LineBytes(b)
  {
    if a == [] {
      assert a + b == b;
    } else {
      assert (a + b)[1..] == a[1..] + b;
      LineBytesConcat(a[1..], b);
    }
  }

  /** A list of separator-free parts can be read back from the joined text; only [] and [""] coincide. */
  lemma {:induction false} JoinInjective(a: seq<Str>, b: seq<Str>, sep: CodeUnit)
    requires a != [] && b != []
    requires forall p | p in a :: sep !in p
    requires forall p | p in b :: sep !in p
    requires Join(a, sep) == Join(b, sep)
    ensures a == b
  {
    HeadLength(a, sep);
    HeadLength(b, sep);
    if |a| > 1 {
      HeadStops(a, b, sep);
    }
    if |b| > 1 {
      HeadStops(b, a, sep);
    }
    var j := Join(a, sep);
    assert |a| == 1 <==> |b| == 1;
    assert a[0] == j[..|a[0]|] && b[0] == j[..|b[0]|];
    if |a| > 1 {
      assert Join(a[1..], sep) == j[|a[0]| + 1..] == Join(b[1..], sep);
      JoinInjective(a[1..], b[1..], sep);
      assert a == [a[0]] + a[1..] && b == [b[0]] + b[1..];
    }
  }

  /** A part without separators ends no later than the first separator of the joined text. */
  lemma HeadStops(a: seq<Str>, b: seq<Str>, sep: CodeUnit)
    requires |a| > 1 && b != [] && sep !in b[0] && Join(a, sep) == Join(b, sep)
    ensures |b[0]| <= |a[0]|
  {
    HeadLength(a, sep);
    HeadLength(b, sep);
    var j := Join(b, sep);
    assert forall i | 0 <= i < |b[0]| :: j[i] == j[..|b[0]|][i] == b[0][i];
  }

  lemma HeadLength(a: seq<Str>, sep: CodeUnit)
    requires a != []
    ensures |Join(a, sep)| >= |a[0]| && Join(a, sep)[..|a[0]|] == a[0]
    ensures |a| > 1 ==> |Join(a, sep)| > |a[0]| && Join(a, sep)[|a[0]|] == sep
  {
  }

  /** String.prototype.split at one code unit. */
  function SplitOn(s: Str, sep: CodeUnit): (parts: seq<Str>)
    ensures parts != [] && forall p | p in parts :: sep !in p
  {
    if s == [] then [[]]
    else
      var rest := SplitOn(s[1..], sep);
      if s[0] == sep then [[]] + rest else [[s[0]] + rest[0]] + rest[1..]
  }

  /** Splitting only takes the separators out. */
  lemma {:induction false} SplitOnJoins(s: Str, sep: CodeUnit)
    ensures Join(SplitOn(s, sep), sep) == s
  {
    if s != [] {
      SplitOnJoins(s[1..], sep);
      var rest := SplitOn(s[1..], sep);
      assert s == [s[0]] + s[1..];
      if s[0] != sep && |rest| > 1 {
        assert ([[s[0]] + rest[0]] + rest[1..])[1..] == rest[1..];
      }
    }
  }

  /** Separator-free parts are what the joined text splits into. */
  lemma JoinedSplits(parts: seq<Str>, sep: CodeUnit)
    requires parts != [] && forall p | p in parts :: sep !in p
    ensures SplitOn(Join(parts, sep), sep) == parts
  {
    hide SplitOn, Join;
    SplitOnJoins(Join(parts, sep), sep);
    JoinInjective(SplitOn(Join(parts, sep), sep), parts, sep);
  }

  // ---------------------------------------------------------------- decimal numerals

  function Digit(d: nat): CodeUnit
    requires d < 10
  {
    0x30 + d
  }

  /** String(n) for a non-negative integer. */
  function Decimal(n: nat): (s: Str)
    ensures |s| >= 1
    ensures IsDigits(s)
  {
    if n < 10 then [Digit(n)] else Decimal(n / 10) + [Digit(n % 10)]
  }

  function DecimalValue(s: Str): nat
    requires IsDigits(s)
  {
    if s == [] then 0
    else DecimalValue(s[..|s| - 1]) * 10 + (s[|s| - 1] - 0x30)
  }

  lemma {:induction false} DecimalRoundTrip(n: nat)
    ensures DecimalValue(Decimal(n)) == n
  {
    var s := Decimal(n);
    if n < 10 {
      assert s[..0] == [];
      assert s[0] == Digit(n);
    } else {
      DecimalRoundTrip(n / 10);
      assert s[..|s| - 1] == Decimal(n / 10);
      assert s[|s| - 1] == Digit(n % 10);
    }
  }

  /** Ten digits, and the base is ten. */
  lemma DecimalIsDecimal(d: nat)
    requires d < 10
    ensures Decimal(d) == [Lit("0123456789")[d]]
    ensures Decimal(10 + d) == Lit("1") + Decimal(d)
  {
    assert Lit("0123456789") == [0x30, 0x31, 0x32, 0x33, 0x34, 0x35, 0x36, 0x37, 0x38, 0x39];
    assert Decimal(10 + d) == Decimal(1) + [Digit(d)];
  }

  /** Nothing but zeros. */
  predicate IsZeros(s: Str) {
    forall i | 0 <= i < |s| :: s[i] == 0x30
  }

  /** The numerals of a number are its decimal one, and the same after zeros. */
  predicate IsNumeralAfter(s: Str, n: nat, k: nat) {
    k < |s| && IsZeros(s[..k]) && s[k..] == Decimal(n)
  }

  lemma {:induction false} PaddedValue(s: Str, n: nat, k: nat)
    requires IsDigits(s) && IsNumeralAfter(s, n, k)
    ensures DecimalValue(s) == n
    decreases |s|
  {
    var m := |s| - 1;
    if k == m {
      ZerosValue(s[..m]);
      assert s[k..] == [s[m]];
      DecimalRoundTrip(n);
      assert DecimalValue([s[m]]) == s[m] - 0x30;
    } else {
      assert s[..m][k..] == Decimal(n)[..m - k] && s[..m][..k] == s[..k];
      PaddedValue(s[..m], n / 10, k);
      assert s[m] == s[k..][m - k];
    }
  }

  lemma {:induction false} ZerosValue(s: Str)
    requires IsDigits(s)
    ensures DecimalValue(s) == 0 <==> IsZeros(s)
  {
    if s != [] {
      var m := |s| - 1;
      ZerosValue(s[..m]);
      assert IsZeros(s) <==> IsZeros(s[..m]) && s[m] == 0x30;
    }
  }

  lemma {:induction false} NumeralOf(s: Str) returns (k: nat)
    requires s != [] && IsDigits(s)
    ensures IsNumeralAfter(s, DecimalValue(s), k)
  {
    hide IsZeros;
    var m := |s| - 1;
    var v := DecimalValue(s[..m]);
    if v == 0 {
      ZerosValue(s[..m]);
      k := m;
      assert s[m..] == [s[m]];
    } else {
      k := NumeralOf(s[..m]);
      assert s[k..] == s[..m][k..] + [s[m]] && s[..k] == s[..m][..k];
    }
  }

  /** A text of digits has the value n exactly if it is the numeral of n, possibly after zeros. */
  lemma NumeralsExactly(s: Str, n: nat)
    requires s != [] && IsDigits(s)
    ensures DecimalValue(s) == n <==> exists k: nat :: IsNumeralAfter(s, n, k)
  {
    hide DecimalValue;
    var k := NumeralOf(s);
    if j: nat :| IsNumeralAfter(s, n, j) {
      PaddedValue(s, n, j);
    }
  }

  lemma DecimalInjective(m: nat, n: nat)
    requires Decimal(m) == Decimal(n)
    ensures m == n
  {
    DecimalRoundTrip(m);
    DecimalRoundTrip(n);
  }

  /** A numeral shrinks by at most as many digits as the number drops. */
  lemma {:induction false} DecimalShrinks(n: nat, k: nat)
    requires k <= n
    ensures |Decimal(n - k)| <= |Decimal(n)| <= |Decimal(n - k)| + k
  {
    if n >= 10 && n - k >= 10 {
      DecimalShrinks(n / 10, n / 10 - (n - k) / 10);
    } else if n >= 10 {
      DecimalLengthBound(n);
    }
  }

  lemma {:induction false} DecimalLengthBound(n: nat)
    ensures n >= 10 ==> |Decimal(n)| + 8 <= n
  {
    if n >= 100 {
      DecimalLengthBound(n / 10);
    }
  }

  lemma {:induction false} AsciiBytes(s: Str)
    requires forall i | 0 <= i < |s| :: s[i] < 0x80
    ensures Utf8Length(s) == |s|
  {
    if s != [] {
      AsciiBytes(s[1..]);
    }
  }
}
