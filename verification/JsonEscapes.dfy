/** What an escape stands for, said without the parser and the printer: the digits of a string of sixteen, the
    UTF-8 of sections 3 and 4 of RFC 3629, the surrogates of section 2 of RFC 2781 and the eight short escapes
    of section 7 of RFC 8259.  The functions that follow the code agree with it in both directions. */
module JsonEscapes {
  import opened Bytes
  import opened JsonText
  import opened JsonString

  const LOWER := "0123456789abcdef"
  const UPPER := "0123456789ABCDEF"

  /** c is the hexadecimal digit d, in either case. */
  predicate IsHex(c: byte, d: int) {
    0 <= d < 16 && (c == LOWER[d] as int || c == UPPER[d] as int)
  }

  lemma HexValueIs(c: byte, d: nat)
    ensures HexValue(c) == d <==> IsHex(c, d)
  {
    if d < 16 {
      assert LOWER[d] as int == if d < 10 then 48 + d else 87 + d;
      assert UPPER[d] as int == if d < 10 then 48 + d else 55 + d;
    }
  }

  /** Four digits that spell n, the highest first. */
  predicate Spells(digits: bytes, n: nat) {
    && |digits| == 4 && n < 0x10000
    && IsHex(digits[0], n / 4096) && IsHex(digits[1], n / 256 % 16) && IsHex(digits[2], n / 16 % 16) && IsHex(digits[3], n % 16)
  }

  lemma FourDigits(a: nat, b: nat, c: nat, d: nat)
    requires a < 16 && b < 16 && c < 16 && d < 16
    ensures var n := 16 * (16 * (16 * a + b) + c) + d;
            n / 4096 == a && n / 256 % 16 == b && n / 16 % 16 == c && n % 16 == d && n < 0x10000
  {
    var n := 16 * (16 * (16 * a + b) + c) + d;
    assert n / 16 == 16 * (16 * a + b) + c;
    assert n / 256 == 16 * a + b;
  }

  /** parse_hex4 reads exactly the number that is spelled. */
  lemma Hex4Reads(digits: bytes, n: nat)
    requires |digits| == 4
    ensures HexDigits(digits, 0) && Hex4(digits, 0) == n <==> Spells(digits, n)
  {
    hide HexPrefix, HexValue, IsHex;
    PrefixOfFour(digits);
    if HexDigits(digits, 0) && Hex4(digits, 0) == n {
      ReadsSpelled(digits, n);
    }
    if Spells(digits, n) {
      SpelledReads(digits, n);
    }
  }

  lemma ReadsSpelled(digits: bytes, n: nat)
    requires |digits| == 4 && HexPrefix(digits, 0, 4) == n
    ensures Spells(digits, n)
  {
    hide HexPrefix, HexValue, IsHex;
    PrefixOfFour(digits);
    var a, b, c, d := HexValue(digits[0]), HexValue(digits[1]), HexValue(digits[2]), HexValue(digits[3]);
    FourDigits(a, b, c, d);
    HexValueIs(digits[0], a);
    HexValueIs(digits[1], b);
    HexValueIs(digits[2], c);
    HexValueIs(digits[3], d);
  }

  lemma SpelledReads(digits: bytes, n: nat)
    requires Spells(digits, n)
    ensures HexPrefix(digits, 0, 4) == n
  {
    hide HexPrefix, HexValue, IsHex;
    PrefixOfFour(digits);
    HexValueIs(digits[0], n / 4096);
    HexValueIs(digits[1], n / 256 % 16);
    HexValueIs(digits[2], n / 16 % 16);
    HexValueIs(digits[3], n % 16);
    FromDigits(n);
  }

  lemma PrefixOfFour(digits: bytes)
    requires |digits| == 4
    ensures var a, b, c, d := HexValue(digits[0]), HexValue(digits[1]), HexValue(digits[2]), HexValue(digits[3]);
            HexPrefix(digits, 0, 4) == if a < 0 || b < 0 || c < 0 || d < 0 then -1 else 16 * (16 * (16 * a + b) + c) + d
  {
    hide HexValue;
    assert HexPrefix(digits, 0, 1) == HexValue(digits[0]);
    var two := HexPrefix(digits, 0, 2);
    var three := HexPrefix(digits, 0, 3);
  }

  lemma FromDigits(n: nat)
    requires n < 0x10000
    ensures n == 16 * (16 * (16 * (n / 4096) + n / 256 % 16) + n / 16 % 16) + n % 16
  {
    assert n / 256 / 16 == n / 4096 && n / 16 / 16 == n / 256;
  }

  // ---- UTF-8 ----

  predicate Tail(b: byte) { 0x80 <= b <= 0xBF }

  /** The bytes of one character, by the syntax of section 4 of RFC 3629. */
  predicate IsUtf8(r: bytes) {
    || (|r| == 1 && r[0] <= 0x7F)
    || (|r| == 2 && 0xC2 <= r[0] <= 0xDF && Tail(r[1]))
    || (|r| == 3 && Tail(r[1]) && Tail(r[2])
        && (if r[0] == 0xE0 then r[1] >= 0xA0 else if r[0] == 0xED then r[1] <= 0x9F else 0xE1 <= r[0] <= 0xEF))
    || (|r| == 4 && Tail(r[1]) && Tail(r[2]) && Tail(r[3])
        && (if r[0] == 0xF0 then r[1] >= 0x90 else if r[0] == 0xF4 then r[1] <= 0x8F else 0xF1 <= r[0] <= 0xF3))
  }

  /** The bits of its bytes that carry the character, put together from the first to the last. */
  function Payload(r: bytes): int
    requires IsUtf8(r)
  {
    var first, more := r[0] as int, r[1..];
    match |r|
    case 1 => first
    case 2 => first % 32 * 64 + TailBits(more[0])
    case 3 => (first % 16 * 64 + TailBits(more[0])) * 64 + TailBits(more[1])
    case _ => ((first % 8 * 64 + TailBits(more[0])) * 64 + TailBits(more[1])) * 64 + TailBits(more[2])
  }

  function TailBits(b: byte): int {
    b % 64
  }

  predicate IsSurrogate(cp: int) { 0xD800 <= cp <= 0xDFFF }

  /** Every character has one encoding, which gives it back, of a length set by its range. */
  lemma Utf8IsStandard(cp: nat)
    requires cp <= 0x10FFFF && !IsSurrogate(cp)
    ensures IsUtf8(Utf8(cp)) && Payload(Utf8(cp)) == cp
    ensures |Utf8(cp)| == if cp < 0x80 then 1 else if cp < 0x800 then 2 else if cp < 0x10000 then 3 else 4
  {
    hide Payload, IsUtf8;
    var a, b, c, d := cp / 262144, cp / 4096 % 64, cp / 64 % 64, cp % 64;
    BySixes(cp);
    if cp < 0x80 {
      OneByte(cp);
    } else if cp < 0x800 {
      TwoBytes(cp / 64, d);
    } else if cp < 0x10000 {
      ThreeBytes(cp / 4096, c, d);
    } else {
      FourBytes(a, b, c, d);
    }
  }

  lemma OneByte(a: nat)
    requires a < 0x80
    ensures IsUtf8([a]) && Payload([a]) == a
  {
  }

  lemma TwoBytes(a: nat, b: nat)
    requires 2 <= a < 32 && b < 64
    ensures var r := [0xC0 + a, 0x80 + b]; IsUtf8(r) && Payload(r) == a * 64 + b
  {
  }

  lemma ThreeBytes(a: nat, b: nat, c: nat)
    requires a < 16 && b < 64 && c < 64 && (a == 0 ==> b >= 32) && (a == 13 ==> b < 32)
    ensures var r := [0xE0 + a, 0x80 + b, 0x80 + c]; IsUtf8(r) && Payload(r) == (a * 64 + b) * 64 + c
  {
    assert (0xE0 + a) % 16 == a && TailBits(0x80 + b) == b && TailBits(0x80 + c) == c;
  }

  lemma FourBytes(a: nat, b: nat, c: nat, d: nat)
    requires a <= 4 && b < 64 && c < 64 && d < 64 && (a == 0 ==> b >= 16) && (a == 4 ==> b < 16)
    ensures var r := [0xF0 + a, 0x80 + b, 0x80 + c, 0x80 + d]; IsUtf8(r) && Payload(r) == ((a * 64 + b) * 64 + c) * 64 + d
  {
    assert (0xF0 + a) % 8 == a && TailBits(0x80 + b) == b && TailBits(0x80 + c) == c && TailBits(0x80 + d) == d;
  }

  lemma BySixes(cp: nat)
    ensures cp == ((cp / 262144 * 64 + cp / 4096 % 64) * 64 + cp / 64 % 64) * 64 + cp % 64
  {
    assert cp / 64 / 64 == cp / 4096 && cp / 4096 / 64 == cp / 262144;
  }

  /** Conversely, whatever is the encoding of a character is the one that is written. */
  lemma Utf8IsUnique(r: bytes)
    requires IsUtf8(r)
    ensures 0 <= Payload(r) <= 0x10FFFF && !IsSurrogate(Payload(r)) && Utf8(Payload(r)) == r
  {
    match |r| {
      case 1 =>
      case 2 => TwoUnique(r);
      case 3 => ThreeUnique(r);
      case _ => FourUnique(r);
    }
  }

  lemma TwoUnique(r: bytes)
    requires IsUtf8(r) && |r| == 2
    ensures 0x80 <= Payload(r) < 0x800 && Utf8(Payload(r)) == r
  {
    FromSixes(0, 0, r[0] % 32, TailBits(r[1]));
  }

  lemma ThreeUnique(r: bytes)
    requires IsUtf8(r) && |r| == 3
    ensures 0x800 <= Payload(r) < 0x10000 && !IsSurrogate(Payload(r)) && Utf8(Payload(r)) == r
  {
    var a, b, c := r[0] % 16, TailBits(r[1]), TailBits(r[2]);
    assert r[0] == 0xE0 + a && r[1] == 0x80 + b && r[2] == 0x80 + c && a * 64 + b >= 32 && (a == 13 ==> b < 32);
    assert Payload(r) == (a * 64 + b) * 64 + c;
    hide Payload, IsUtf8;
    FromSixes(0, a, b, c);
  }

  lemma FourUnique(r: bytes)
    requires IsUtf8(r) && |r| == 4
    ensures 0x10000 <= Payload(r) <= 0x10FFFF && Utf8(Payload(r)) == r
  {
    hide Payload, IsUtf8;
    FourParts(r);
    FromSixes(r[0] % 8, TailBits(r[1]), TailBits(r[2]), TailBits(r[3]));
  }

  lemma FourParts(r: bytes)
    requires IsUtf8(r) && |r| == 4
    ensures var a, b, c, d := r[0] % 8, TailBits(r[1]), TailBits(r[2]), TailBits(r[3]);
            && r[0] == 0xF0 + a && r[1] == 0x80 + b && r[2] == 0x80 + c && r[3] == 0x80 + d && 16 <= a * 64 + b < 272
            && Payload(r) == ((a * 64 + b) * 64 + c) * 64 + d
  {
  }

  lemma FromSixes(a: nat, b: nat, c: nat, d: nat)
    requires b < 64 && c < 64 && d < 64
    ensures var cp := ((a * 64 + b) * 64 + c) * 64 + d;
            cp / 262144 == a && cp / 4096 == a * 64 + b && cp / 4096 % 64 == b && cp / 64 % 64 == c && cp % 64 == d
            && cp / 64 == (a * 64 + b) * 64 + c
  {
    var cp := ((a * 64 + b) * 64 + c) * 64 + d;
    assert cp / 64 == (a * 64 + b) * 64 + c;
    assert cp / 64 / 64 == cp / 4096 && cp / 4096 / 64 == cp / 262144;
  }

  // ---- escapes ----

  /** The two halves of a character beyond the first 2^16. */
  predicate Halves(high: nat, low: nat, cp: nat) {
    0x10000 <= cp <= 0x10FFFF && high == 0xD800 + (cp - 0x10000) / 0x400 && low == 0xDC00 + (cp - 0x10000) % 0x400
  }

  lemma CombineIs(high: nat, low: nat, cp: nat)
    ensures HighSurrogate(high) && LowSurrogate(low) && Combine(high, low) == cp <==> Halves(high, low, cp)
  {
    if HighSurrogate(high) && LowSurrogate(low) {
      var rest := (high - 0xD800) * 0x400 + (low - 0xDC00);
      assert rest / 0x400 == high - 0xD800 && rest % 0x400 == low - 0xDC00;
    }
    if Halves(high, low, cp) {
      assert (cp - 0x10000) / 0x400 < 0x400;
    }
  }

  /** The letter behind the backslash, and the byte it stands for. */
  predicate ShortFor(c: byte, b: byte) {
    (c as char, b) in {('\"', 34), ('\\', 92), ('/', 47), ('b', 8), ('f', 12), ('n', 10), ('r', 13), ('t', 9)}
  }

  lemma ShortEscapeIs(c: byte, b: byte)
    ensures ShortEscape(c) == Some(b) <==> ShortFor(c, b)
  {
  }

  /** The bytes one well-formed piece of a literal stands for; `cp` is the character of an escape with digits. */
  predicate Stands(piece: Piece, cp: nat, out: bytes) {
    match piece
    case Plain(c) => c != '\"' as int && c != '\\' as int && out == [c]
    case Short(c) => |out| == 1 && ShortFor(c, out[0])
    case Bmp(digits) => IsUtf8(out) && Payload(out) == cp && Spells(digits, cp)
    case Surrogates(high, low) =>
      && IsUtf8(out) && Payload(out) == cp && cp >= 0x10000
      && Spells(high, 0xD800 + (cp - 0x10000) / 0x400) && Spells(low, 0xDC00 + (cp - 0x10000) % 0x400)
  }

  ghost predicate StandsFor(piece: Piece, out: bytes) {
    exists cp :: Stands(piece, cp, out)
  }

  /** The piece is well-formed, and means these bytes, exactly if it stands for them. */
  lemma PieceStands(piece: Piece, out: bytes)
    ensures WellFormed(piece) && PieceMeaning(piece) == out <==> StandsFor(piece, out)
  {
    match piece {
      case Plain(c) => assert Stands(piece, 0, [c]) <==> WellFormed(piece);
      case Short(c) => ShortStands(c, out);
      case Bmp(digits) => BmpStands(digits, out);
      case Surrogates(high, low) => PairStands(high, low, out);
    }
  }

  lemma ShortStands(c: byte, out: bytes)
    ensures WellFormed(Short(c)) && PieceMeaning(Short(c)) == out <==> StandsFor(Short(c), out)
  {
    if |out| == 1 {
      ShortEscapeIs(c, out[0]);
      assert out == [out[0]];
      assert ShortFor(c, out[0]) ==> Stands(Short(c), 0, out);
    }
  }

  lemma BmpStands(digits: bytes, out: bytes)
    ensures WellFormed(Bmp(digits)) && PieceMeaning(Bmp(digits)) == out <==> StandsFor(Bmp(digits), out)
  {
    hide HexDigits, Hex4, Utf8, Payload, IsUtf8, Spells, HexPrefix;
    if WellFormed(Bmp(digits)) && PieceMeaning(Bmp(digits)) == out {
      var cp := Hex4(digits, 0);
      Hex4Reads(digits, cp);
      assert cp < 0x10000 by { SpellsBelow(digits, cp); }
      Utf8IsStandard(cp);
      assert Stands(Bmp(digits), cp, out);
    }
    if cp :| Stands(Bmp(digits), cp, out) {
      SpellsBelow(digits, cp);
      Hex4Reads(digits, cp);
      Utf8IsUnique(out);
    }
  }

  lemma SpellsBelow(digits: bytes, n: nat)
    requires Spells(digits, n)
    ensures |digits| == 4 && n < 0x10000
  {
  }

  lemma PairStands(high: bytes, low: bytes, out: bytes)
    ensures WellFormed(Surrogates(high, low)) && PieceMeaning(Surrogates(high, low)) == out <==>
            StandsFor(Surrogates(high, low), out)
  {
    hide HexDigits, Hex4, Utf8, Payload, IsUtf8, Spells, HexPrefix, Combine;
    if WellFormed(Surrogates(high, low)) && PieceMeaning(Surrogates(high, low)) == out {
      var h, l := Hex4(high, 0), Hex4(low, 0);
      var cp := Combine(h, l);
      Hex4Reads(high, h);
      Hex4Reads(low, l);
      CombineIs(h, l, cp);
      Utf8IsStandard(cp);
      assert Stands(Surrogates(high, low), cp, out);
    }
    if cp :| Stands(Surrogates(high, low), cp, out) {
      Utf8IsUnique(out);
      var h, l := 0xD800 + (cp - 0x10000) / 0x400, 0xDC00 + (cp - 0x10000) % 0x400;
      SpellsBelow(high, h);
      SpellsBelow(low, l);
      Hex4Reads(high, h);
      Hex4Reads(low, l);
      CombineIs(h, l, cp);
    }
  }

  ghost predicate AllStand(pieces: seq<Piece>, parts: seq<bytes>) {
    |parts| == |pieces| && forall i :: 0 <= i < |pieces| ==> StandsFor(pieces[i], parts[i])
  }

  function Concat(parts: seq<bytes>): bytes {
    if parts == [] then [] else parts[0] + Concat(parts[1..])
  }

  lemma {:induction false} MeaningStands(pieces: seq<Piece>, parts: seq<bytes>)
    requires AllStand(pieces, parts)
    ensures AllWellFormed(pieces) && Meaning(pieces) == Concat(parts)
  {
    hide StandsFor, WellFormed, PieceMeaning;
    forall i | 0 <= i < |pieces| ensures WellFormed(pieces[i]) && PieceMeaning(pieces[i]) == parts[i] {
      PieceStands(pieces[i], parts[i]);
    }
    if pieces != [] {
      MeaningStands(pieces[1..], parts[1..]);
    }
  }

  /** A literal made of such pieces is read, by both passes, as what they stand for. */
  lemma LiteralStands(s: bytes, p: nat, pieces: seq<Piece>, parts: seq<bytes>)
    requires AllStand(pieces, parts) && At(s, p, Spell(pieces))
    requires p + |Spell(pieces)| < |s| && s[p + |Spell(pieces)|] == QUOTE
    ensures Scan(s, p) == Some(p + |Spell(pieces)|)
    ensures Unescape(s, p, p + |Spell(pieces)|) == Good(Concat(parts))
  {
    MeaningStands(pieces, parts);
    WellFormedLiteral(s, p, pieces);
  }

  /** Conversely, a literal accepted without a bad digit is made of such pieces. */
  lemma AcceptedStands(s: bytes, p: nat, end: nat) returns (pieces: seq<Piece>, parts: seq<bytes>)
    requires Literal(s, p, end) && Scan(s, p) == Some(end) && DigitsGood(s, p, end)
    requires Unescape(s, p, end).Good?
    ensures AllStand(pieces, parts) && Spell(pieces) == s[p..end]
    ensures Unescape(s, p, end) == Good(Concat(parts))
  {
    pieces := AcceptedIsWellFormed(s, p, end);
    hide StandsFor, WellFormed, PieceMeaning, Scan, Unescape, DigitsGood, Spell;
    parts := seq(|pieces|, i requires 0 <= i < |pieces| => PieceMeaning(pieces[i]));
    forall i | 0 <= i < |pieces| ensures StandsFor(pieces[i], parts[i]) {
      PieceStands(pieces[i], parts[i]);
    }
    MeaningStands(pieces, parts);
  }

  // ---- what the printer writes ----

  /** The escapes of the printer: seven short ones, four digits for the other control bytes, and no others. */
  lemma PrinterEscapes(c: nonzero)
    ensures var e := EscapeByte(c);
            if c in {34, 92} then e == ['\\' as int, c]
            else if c in {8, 9, 10, 12, 13} then
              |e| == 2 && e[0] == '\\' as int && e[1] != '/' as int && ShortFor(e[1], c)
            else if c < 32 then
              |e| == 6 && e[..2] == ['\\' as int, 'u' as int] && Spells(e[2..], c) && forall i :: 2 <= i < 6 ==> e[i] as char in LOWER
            else e == [c]
  {
    if c < 32 && c !in {8, 9, 10, 12, 13} {
      var h, l := c / 16, c % 16;
      assert HexChar(h) == LOWER[h] as int && HexChar(l) == LOWER[l] as int;
      assert LOWER[0] == '0' && '0' as int == 48;
      var e := EscapeByte(c);
      assert e == [92, 117, 48, 48, HexChar(h), HexChar(l)];
      hide EscapeByte, HexChar;
      assert e[2..] == [48, 48, HexChar(h), HexChar(l)];
    }
  }
}
