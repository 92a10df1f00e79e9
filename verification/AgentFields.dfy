/**
 The field encoding of the agent receipt: percent-encoded UTF-8 with `%uXXXX` for lone
 surrogates. A reference decoder shows that every UTF-16 sequence can be read back and that no
 encoded field can contain a separator.
 */
module AgentFields {
  import opened Wrappers
  import opened Text

  const PERCENT: CodeUnit := 0x25
  const LOWER_U: CodeUnit := 0x75

  /** Digits, letters and `+ - . / : _` are kept as they are. */
  predicate IsSafeFieldByte(b: int) {
    0x30 <= b <= 0x39 || 0x41 <= b <= 0x5A || 0x61 <= b <= 0x7A ||
    b == 0x2B || b == 0x2D || b == 0x2E || b == 0x2F || b == 0x3A || b == 0x5F
  }

  /** Upper-case hexadecimal digit. */
  function HexDigit(d: nat): CodeUnit
    requires d < 16
  {
    if d < 10 then 0x30 + d else 0x41 + d - 10
  }

  function EncodeByte(b: Byte): Str {
    if IsSafeFieldByte(b) then [b] else [PERCENT, HexDigit(b / 16), HexDigit(b % 16)]
  }

  function EncodeBytes(bytes: seq<Byte>): Str {
    if bytes == [] then [] else EncodeByte(bytes[0]) + EncodeBytes(bytes[1..])
  }

  /** `%u` and four hexadecimal digits. */
  function EncodeLone(u: CodeUnit): Str {
    [PERCENT, LOWER_U, HexDigit(u / 0x1000), HexDigit(u / 0x100 % 16), HexDigit(u / 16 % 16), HexDigit(u % 16)]
  }

  /** UTF-8 of a scalar value of the basic plane. */
  function Utf8OfUnit(u: CodeUnit): seq<Byte> {
    if u < 0x80 then [u]
    else if u < 0x800 then [0xC0 + u / 64, 0x80 + u % 64]
    else [0xE0 + u / 0x1000, 0x80 + u / 64 % 64, 0x80 + u % 64]
  }

  /** UTF-8 of the supplementary scalar value a surrogate pair stands for. */
  function Utf8OfPair(high: CodeUnit, low: CodeUnit): seq<Byte>
    requires IsHigh(high) && IsLow(low)
  {
    var cp := 0x10000 + (high - 0xD800) * 0x400 + (low - 0xDC00);
    [0xF0 + cp / 0x40000, 0x80 + cp / 0x1000 % 64, 0x80 + cp / 64 % 64, 0x80 + cp % 64]
  }

  /** Code units consumed by the next step of the encoder. */
  function StepWidth(v: Str): nat
    requires v != []
  {
    if StartsPair(v) then 2 else 1
  }

  /** What the next step of the encoder appends. */
  function StepOutput(v: Str): Str
    requires v != []
  {
    if StartsPair(v) then EncodeBytes(Utf8OfPair(v[0], v[1]))
    else if IsHigh(v[0]) || IsLow(v[0]) then EncodeLone(v[0])
    else EncodeBytes(Utf8OfUnit(v[0]))
  }

  function Encode(v: Str): Str {
    if v == [] then [] else StepOutput(v) + Encode(v[StepWidth(v)..])
  }

  /** encodeAgentFieldValue: the loop over the code-unit index. */
  method EncodeAgentFieldValue(value: Str) returns (encoded: Str)
    ensures encoded == Encode(value)
    ensures Decode(encoded) == Some(value)
  {
    encoded := [];
    var index := 0;
    while index < |value|
      invariant 0 <= index <= |value|
      invariant Encode(value) == encoded + Encode(value[index..])
    {
      EncodeAt(value, index);
      if IsHigh(value[index]) {
        if index + 1 < |value| && IsLow(value[index + 1]) {
          encoded := encoded + EncodeBytes(Utf8OfPair(value[index], value[index + 1]));
          index := index + 2;
          continue;
        }
        encoded := encoded + EncodeLone(value[index]);
        index := index + 1;
        continue;
      }
      if IsLow(value[index]) {
        encoded := encoded + EncodeLone(value[index]);
        index := index + 1;
        continue;
      }
      encoded := encoded + EncodeBytes(Utf8OfUnit(value[index]));
      index := index + 1;
    }
    EncodeDecodes(value);
  }

  /** The encoder's step at an index, in terms of the code units there. */
  lemma EncodeAt(value: Str, index: nat)
    requires index < |value|
    ensures var pair := IsHigh(value[index]) && index + 1 < |value| && IsLow(value[index + 1]);
            forall encoded: Str | Encode(value) == encoded + Encode(value[index..]) ::
              Encode(value) ==
              encoded + (if pair then EncodeBytes(Utf8OfPair(value[index], value[index + 1]))
                         else if IsHigh(value[index]) || IsLow(value[index]) then EncodeLone(value[index])
                         else EncodeBytes(Utf8OfUnit(value[index])))
              + Encode(value[if pair then index + 2 else index + 1..])
  {
    var rest := value[index..];
    assert rest[1..] == value[index + 1..] && (|rest| > 1 ==> rest[2..] == value[index + 2..]);
    forall encoded: Str | Encode(value) == encoded + Encode(rest)
      ensures Encode(value) == encoded + StepOutput(rest) + Encode(rest[StepWidth(rest)..])
    {
      assert Encode(rest) == StepOutput(rest) + Encode(rest[StepWidth(rest)..]);
    }
  }

  // ---------------------------------------------------------------- a reference decoder

  function HexValue(c: CodeUnit): Option<nat> {
    if 0x30 <= c <= 0x39 then Some(c - 0x30)
    else if 0x41 <= c <= 0x46 then Some(c - 0x41 + 10)
    else None
  }

  /** The next encoded byte and the text after it. */
  function NextByte(t: Str): Option<(Byte, Str)> {
    if t == [] then None
    else if t[0] == PERCENT then
      if |t| >= 3 && HexValue(t[1]).Some? && HexValue(t[2]).Some?
      then Some((HexValue(t[1]).value * 16 + HexValue(t[2]).value, t[3..]))
      else None
    else if IsSafeFieldByte(t[0]) then Some((t[0], t[1..]))
    else None
  }

  function TakeBytes(t: Str, n: nat): (r: Option<(seq<Byte>, Str)>)
    ensures r.Some? ==> |r.value.0| == n && |r.value.1| + n <= |t|
    decreases n
  {
    if n == 0 then Some(([], t))
    else
      match NextByte(t)
      case None => None
      case Some((b, rest)) =>
        match TakeBytes(rest, n - 1)
        case None => None
        case Some((bs, left)) => Some(([b] + bs, left))
  }

  /** Length of a UTF-8 sequence by its first byte. */
  function SequenceLength(first: Byte): nat {
    if first < 0xC0 then 1 else if first < 0xE0 then 2 else if first < 0xF0 then 3 else 4
  }

  function PairCodePoint(bs: seq<Byte>): int
    requires |bs| == 4
  {
    (bs[0] as int - 0xF0) * 0x40000 + (bs[1] as int - 0x80) * 0x1000 + (bs[2] as int - 0x80) * 64 + (bs[3] as int - 0x80)
  }

  function DecodeScalar(bs: seq<Byte>): Option<Str> {
    if exists i :: 1 <= i < |bs| && !(0x80 <= bs[i] < 0xC0) then None
    else if |bs| == 1 then (if bs[0] < 0x80 then Some([bs[0]]) else None)
    else if |bs| == 2 && 0xC0 <= bs[0] < 0xE0 then Some([(bs[0] as int - 0xC0) * 64 + (bs[1] as int - 0x80)])
    else if |bs| == 3 && 0xE0 <= bs[0] < 0xF0 then
      Some([(bs[0] as int - 0xE0) * 0x1000 + (bs[1] as int - 0x80) * 64 + (bs[2] as int - 0x80)])
    else if |bs| == 4 && 0xF0 <= bs[0] < 0xF5 then
      var cp := PairCodePoint(bs);
      if 0x10000 <= cp < 0x110000
      then Some([0xD800 + (cp - 0x10000) / 0x400, 0xDC00 + (cp - 0x10000) % 0x400])
      else None
    else None
  }

  predicate IsLoneEscape(t: Str) {
    |t| >= 6 && t[0] == PERCENT && t[1] == LOWER_U && forall i | 2 <= i < 6 :: HexValue(t[i]).Some?
  }

  function LoneEscapeValue(t: Str): CodeUnit
    requires IsLoneEscape(t)
  {
    HexValue(t[2]).value * 0x1000 + HexValue(t[3]).value * 0x100 + HexValue(t[4]).value * 16 + HexValue(t[5]).value
  }

  /** The next decoded code units and the encoded text after them. */
  function DecodeStep(t: Str): (r: Option<(Str, Str)>)
    ensures r.Some? ==> |r.value.1| < |t|
  {
    if IsLoneEscape(t) then Some(([LoneEscapeValue(t)], t[6..]))
    else
      match NextByte(t)
      case None => None
      case Some((first, _)) =>
        match TakeBytes(t, SequenceLength(first))
        case None => None
        case Some((bs, rest)) =>
          match DecodeScalar(bs)
          case None => None
          case Some(units) => Some((units, rest))
  }

  function Decode(t: Str): Option<Str>
    decreases |t|
  {
    if t == [] then Some([])
    else
      match DecodeStep(t)
      case None => None
      case Some((units, rest)) =>
        match Decode(rest)
        case None => None
        case Some(more) => Some(units + more)
  }

  // ---------------------------------------------------------------- unique decodability

  lemma HexRoundTrip(d: nat)
    requires d < 16
    ensures HexValue(HexDigit(d)) == Some(d) && HexDigit(d) != LOWER_U
  {
  }

  lemma EncodedByteIsRead(b: Byte, rest: Str)
    ensures NextByte(EncodeByte(b) + rest) == Some((b, rest))
    ensures !IsLoneEscape(EncodeByte(b) + rest)
  {
    var t := EncodeByte(b) + rest;
    if IsSafeFieldByte(b) {
      assert t[0] == b && t[1..] == rest;
    } else {
      HexRoundTrip(b / 16);
      HexRoundTrip(b % 16);
      assert t[0] == PERCENT && t[1] == HexDigit(b / 16) && t[2] == HexDigit(b % 16) && t[3..] == rest;
    }
  }

  lemma {:induction false} EncodedBytesAreRead(bs: seq<Byte>, rest: Str)
    ensures TakeBytes(EncodeBytes(bs) + rest, |bs|) == Some((bs, rest))
  {
    if bs == [] {
      assert EncodeBytes(bs) + rest == rest;
    } else {
      var tail := EncodeBytes(bs[1..]) + rest;
      assert EncodeBytes(bs) + rest == EncodeByte(bs[0]) + tail;
      EncodedByteIsRead(bs[0], tail);
      EncodedBytesAreRead(bs[1..], rest);
      assert bs == [bs[0]] + bs[1..];
    }
  }

  lemma EncodedScalarIsRead(bs: seq<Byte>, units: Str, rest: Str)
    requires bs != [] && SequenceLength(bs[0]) == |bs| && DecodeScalar(bs) == Some(units)
    ensures DecodeStep(EncodeBytes(bs) + rest) == Some((units, rest))
  {
    var tail := EncodeBytes(bs[1..]) + rest;
    assert EncodeBytes(bs) + rest == EncodeByte(bs[0]) + tail;
    EncodedByteIsRead(bs[0], tail);
    EncodedBytesAreRead(bs, rest);
  }

  lemma UnitRoundTrip(u: CodeUnit)
    requires !IsHigh(u) && !IsLow(u)
    ensures SequenceLength(Utf8OfUnit(u)[0]) == |Utf8OfUnit(u)| && DecodeScalar(Utf8OfUnit(u)) == Some([u])
  {
  }

  lemma SextetsRebuild(cp: nat)
    requires cp < 0x110000
    ensures cp / 0x40000 * 0x40000 + cp / 0x1000 % 64 * 0x1000 + cp / 64 % 64 * 64 + cp % 64 == cp
    ensures cp / 0x40000 <= 4
  {
    assert cp / 0x1000 == cp / 64 / 64 && cp / 0x40000 == cp / 64 / 64 / 64;
  }

  lemma PairRoundTrip(high: CodeUnit, low: CodeUnit)
    requires IsHigh(high) && IsLow(low)
    ensures var bs := Utf8OfPair(high, low); SequenceLength(bs[0]) == 4 && DecodeScalar(bs) == Some([high, low])
  {
    var h, l := high - 0xD800, low - 0xDC00;
    var cp := 0x10000 + h * 0x400 + l;
    SextetsRebuild(cp);
    assert PairCodePoint(Utf8OfPair(high, low)) == cp;
    assert (cp - 0x10000) / 0x400 == h && (cp - 0x10000) % 0x400 == l;
  }

  lemma NibblesRebuild(u: CodeUnit)
    ensures u / 0x1000 < 16
    ensures u / 0x1000 * 0x1000 + u / 0x100 % 16 * 0x100 + u / 16 % 16 * 16 + u % 16 == u
  {
    assert u / 0x100 == u / 16 / 16 && u / 0x1000 == u / 16 / 16 / 16;
  }

  lemma LoneRoundTrip(u: CodeUnit, rest: Str)
    ensures DecodeStep(EncodeLone(u) + rest) == Some(([u], rest))
  {
    hide HexValue, HexDigit, NextByte;
    var t := EncodeLone(u) + rest;
    NibblesRebuild(u);
    HexRoundTrip(u / 0x1000);
    HexRoundTrip(u / 0x100 % 16);
    HexRoundTrip(u / 16 % 16);
    HexRoundTrip(u % 16);
    assert t[6..] == rest;
    assert t[2] == HexDigit(u / 0x1000) && t[3] == HexDigit(u / 0x100 % 16);
    assert t[4] == HexDigit(u / 16 % 16) && t[5] == HexDigit(u % 16);
  }

  lemma StepIsRead(v: Str, rest: Str)
    requires v != []
    ensures DecodeStep(StepOutput(v) + rest) == Some((v[..StepWidth(v)], rest))
  {
    if StartsPair(v) {
      PairRoundTrip(v[0], v[1]);
      EncodedScalarIsRead(Utf8OfPair(v[0], v[1]), [v[0], v[1]], rest);
      assert v[..2] == [v[0], v[1]];
    } else if IsHigh(v[0]) || IsLow(v[0]) {
      LoneRoundTrip(v[0], rest);
      assert v[..1] == [v[0]];
    } else {
      UnitRoundTrip(v[0]);
      EncodedScalarIsRead(Utf8OfUnit(v[0]), [v[0]], rest);
      assert v[..1] == [v[0]];
    }
  }

  /** Every UTF-16 sequence, lone surrogates included, is recovered from its encoding. */
  lemma {:induction false} EncodeDecodes(v: Str)
    ensures Decode(Encode(v)) == Some(v)
  {
    if v != [] {
      var w := StepWidth(v);
      StepIsRead(v, Encode(v[w..]));
      EncodeDecodes(v[w..]);
      assert v == v[..w] + v[w..];
    }
  }

  lemma EncodeInjective(a: Str, b: Str)
    requires Encode(a) == Encode(b)
    ensures a == b
  {
    EncodeDecodes(a);
    EncodeDecodes(b);
  }

  // ---------------------------------------------------------------- no separators

  /** Space, line break, comma and `=` are not field characters. */
  predicate IsFieldChar(c: CodeUnit) {
    IsSafeFieldByte(c) || c == PERCENT
  }

  predicate FieldSafe(s: Str) {
    forall i | 0 <= i < |s| :: IsFieldChar(s[i])
  }

  lemma {:induction false} EncodeBytesSafe(bs: seq<Byte>)
    ensures FieldSafe(EncodeBytes(bs))
  {
    if bs != [] {
      EncodeBytesSafe(bs[1..]);
    }
  }

  lemma {:induction false} EncodeSafe(v: Str)
    ensures FieldSafe(Encode(v))
  {
    if v != [] {
      EncodeSafe(v[StepWidth(v)..]);
      if StartsPair(v) {
        EncodeBytesSafe(Utf8OfPair(v[0], v[1]));
      } else if !IsHigh(v[0]) && !IsLow(v[0]) {
        EncodeBytesSafe(Utf8OfUnit(v[0]));
      }
    }
  }

  /** No value can add a field, a line, a list element or a key to the record it is written in. */
  lemma EncodeHasNoSeparator(v: Str)
    ensures ' ' as int !in Encode(v) && '\n' as int !in Encode(v) && ',' as int !in Encode(v) && '=' as int !in Encode(v)
  {
    hide Encode;
    EncodeSafe(v);
  }

  function EncodeAll(paths: seq<Str>): (r: seq<Str>)
    ensures |r| == |paths| && forall i | 0 <= i < |paths| :: r[i] == Encode(paths[i])
  {
    seq(|paths|, i requires 0 <= i < |paths| => Encode(paths[i]))
  }

  /** The comma-joined authority field of an ADMISSION record. */
  function AuthorityField(paths: seq<Str>): Str {
    Join(EncodeAll(paths), COMMA)
  }

  lemma EncodeAllSafe(paths: seq<Str>)
    ensures forall p | p in EncodeAll(paths) :: COMMA !in p
  {
    hide Encode;
    forall i | 0 <= i < |paths| ensures COMMA !in EncodeAll(paths)[i] {
      EncodeSafe(paths[i]);
    }
  }

  /** The authority field determines its non-empty path list. */
  lemma AuthorityFieldDeterminesPaths(a: seq<Str>, b: seq<Str>)
    requires a != [] && b != [] && AuthorityField(a) == AuthorityField(b)
    ensures a == b
  {
    hide Encode, Join;
    EncodeAllSafe(a);
    EncodeAllSafe(b);
    JoinInjective(EncodeAll(a), EncodeAll(b), COMMA);
    forall i | 0 <= i < |a| ensures a[i] == b[i] {
      assert EncodeAll(a)[i] == EncodeAll(b)[i];
      EncodeInjective(a[i], b[i]);
    }
  }

  // ---------------------------------------------------------------- what stays readable

  /** Digits, letters and the punctuation of ordinary repository paths and identifiers. */
  predicate IsReadable(c: CodeUnit) {
    || '0' as int <= c <= '9' as int || 'A' as int <= c <= 'Z' as int || 'a' as int <= c <= 'z' as int
    || c in Lit("+-./:_")
  }

  lemma SafeIsReadable(c: CodeUnit)
    ensures IsReadable(c) <==> IsSafeFieldByte(c)
  {
    assert Lit("+-./:_") == [0x2B, 0x2D, 0x2E, 0x2F, 0x3A, 0x5F];
  }

  /** A step keeps a readable unit and makes anything else longer. */
  lemma StepGrows(v: Str)
    requires v != []
    ensures |StepOutput(v)| >= StepWidth(v)
    ensures if IsReadable(v[0]) then StepOutput(v) == [v[0]] && StepWidth(v) == 1 else |StepOutput(v)| > StepWidth(v)
  {
    hide IsReadable;
    SafeIsReadable(v[0]);
    if !StartsPair(v) && !IsHigh(v[0]) && !IsLow(v[0]) {
      var bytes := Utf8OfUnit(v[0]);
      BytesGrow(bytes);
      if v[0] < 0x80 {
        assert bytes[1..] == [];
      }
    } else if StartsPair(v) {
      BytesGrow(Utf8OfPair(v[0], v[1]));
    }
  }

  lemma {:induction false} BytesGrow(bytes: seq<Byte>)
    ensures |EncodeBytes(bytes)| >= |bytes|
  {
    if bytes != [] {
      BytesGrow(bytes[1..]);
    }
  }

  lemma {:induction false} EncodeGrows(v: Str)
    ensures |Encode(v)| >= |v|
    ensures (exists c | c in v :: !IsReadable(c)) ==> |Encode(v)| > |v|
    decreases |v|
  {
    hide IsReadable, StepOutput;
    if v != [] {
      StepGrows(v);
      EncodeGrows(v[StepWidth(v)..]);
    }
  }

  /** A value is written as it is exactly when all of it is readable. */
  lemma {:induction false} KeptExactly(v: Str)
    ensures Encode(v) == v <==> forall c | c in v :: IsReadable(c)
    decreases |v|
  {
    hide IsReadable, StepOutput;
    EncodeGrows(v);
    if v != [] && forall c | c in v :: IsReadable(c) {
      StepGrows(v);
      KeptExactly(v[1..]);
      assert v == [v[0]] + v[1..];
    }
  }
}
