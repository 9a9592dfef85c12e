/** String literals: the two passes of parse_string over a literal and what they produce
    (cJSON.c:540-825), with the unescaping of section 7 of RFC 8259 and the UTF-8 of section 3
    of RFC 3629 as reference. */
module JsonString {
  import opened Bytes
  import opened JsonText

  // ---- hexadecimal and UTF-8 ----

  function HexValue(c: byte): (d: int)
    ensures -1 <= d < 16
  {
    if 48 <= c <= 57 then c - 48
    else if 65 <= c <= 70 then c - 55
    else if 97 <= c <= 102 then c - 87
    else -1
  }

  /** Value of the n hexadecimal digits at position at, or -1 when one of them is not a digit. */
  function HexPrefix(s: bytes, at: nat, n: nat): (v: int)
    requires at + n <= |s|
    ensures -1 <= v
  {
    if n == 0 then 0
    else
      var head, digit := HexPrefix(s, at, n - 1), HexValue(s[at + n - 1]);
      if head < 0 || digit < 0 then -1 else 16 * head + digit
  }

  predicate HexDigits(s: bytes, at: nat)
    requires at + 4 <= |s|
  {
    HexPrefix(s, at, 4) >= 0
  }

  /** parse_hex4: an invalid digit gives 0, not an error. */
  function Hex4(s: bytes, at: nat): (h: nat)
    requires at + 4 <= |s|
    ensures h < 0x10000
  {
    HexBound(s, at, 4);
    if HexDigits(s, at) then HexPrefix(s, at, 4) else 0
  }

  function Power16(n: nat): nat {
    if n == 0 then 1 else 16 * Power16(n - 1)
  }

  lemma {:induction false} HexBound(s: bytes, at: nat, n: nat)
    requires at + n <= |s|
    ensures HexPrefix(s, at, n) < Power16(n)
    ensures Power16(4) == 0x10000
  {
    if n > 0 {
      HexBound(s, at, n - 1);
    }
  }

  method ParseHex4(s: bytes, at: nat) returns (h: nat)
    requires at + 4 <= |s|
    ensures h == Hex4(s, at)
  {
    h := 0;
    var i := 0;
    while i < 4
      invariant 0 <= i <= 4
      invariant HexPrefix(s, at, i) >= 0
      invariant h == HexPrefix(s, at, i) * (if 0 < i < 4 then 16 else 1)
    {
      var c := s[at + i];
      if 48 <= c <= 57 {
        h := h + (c - 48);
      } else if 65 <= c <= 70 {
        h := h + (10 + c - 65);
      } else if 97 <= c <= 102 {
        h := h + (10 + c - 97);
      } else {
        HexStaysBad(s, at, i + 1, 4);
        return 0;
      }
      if i < 3 {
        h := h * 16;
      }
      i := i + 1;
    }
  }

  lemma {:induction false} HexStaysBad(s: bytes, at: nat, m: nat, n: nat)
    requires m <= n && at + n <= |s| && HexPrefix(s, at, m) < 0
    ensures HexPrefix(s, at, n) < 0
  {
    if m < n {
      HexStaysBad(s, at, m, n - 1);
    }
  }

  /** Section 3 of RFC 3629. */
  function Utf8(cp: nat): (r: bytes)
    requires cp <= 0x10FFFF
    ensures 1 <= |r| <= 4 && (cp < 0x10000 ==> |r| <= 3)
  {
    if cp < 0x80 then [cp]
    else if cp < 0x800 then [0xC0 + cp / 64, 0x80 + cp % 64]
    else if cp < 0x10000 then [0xE0 + cp / 4096, 0x80 + cp / 64 % 64, 0x80 + cp % 64]
    else [0xF0 + cp / 262144, 0x80 + cp / 4096 % 64, 0x80 + cp / 64 % 64, 0x80 + cp % 64]
  }

  // ---- one step of the second pass ----

  predicate HighSurrogate(u: nat) { 0xD800 <= u <= 0xDBFF }

  predicate LowSurrogate(u: nat) { 0xDC00 <= u <= 0xDFFF }

  function Combine(high: nat, low: nat): (cp: nat)
    requires HighSurrogate(high) && LowSurrogate(low)
    ensures 0x10000 <= cp <= 0x10FFFF
  {
    0x10000 + (high - 0xD800) * 0x400 + (low - 0xDC00)
  }

  /** Bytes of input one step takes, 0 when it fails, and the bytes it writes. */
  datatype Step = Step(length: nat, out: bytes)

  const FAILED := Step(0, [])

  /** utf16_literal_to_utf8 on the escape at position at of a literal ending at end. */
  function Utf16Literal(s: bytes, at: nat, end: nat): (r: Step)
    requires at < end <= |s|
    ensures r.length in {0, 6, 12} && at + r.length <= end
    ensures r.length == 0 ==> r.out == []
    ensures r.length == 6 ==> 1 <= |r.out| <= 3
    ensures r.length == 12 ==> |r.out| <= 4
  {
    if end - at < 6 then FAILED
    else
      var first := Hex4(s, at + 2);
      if LowSurrogate(first) then FAILED
      else if HighSurrogate(first) then
        if end - (at + 6) < 6 then FAILED
        else if s[at + 6] != BACKSLASH || s[at + 7] != 117 then FAILED
        else
          var second := Hex4(s, at + 8);
          if !LowSurrogate(second) then FAILED
          else Step(12, Utf8(Combine(first, second)))
      else Step(6, Utf8(first))
  }

  /** What a two-character escape stands for. */
  function ShortEscape(c: byte): Option<byte> {
    if c == 98 then Some(8)
    else if c == 102 then Some(12)
    else if c == 110 then Some(10)
    else if c == 114 then Some(13)
    else if c == 116 then Some(9)
    else if c == QUOTE || c == BACKSLASH || c == SLASH then Some(c)
    else None
  }

  /** The closing quote of the literal is at end; a backslash just before it may take it along. */
  predicate Literal(s: bytes, p: nat, end: nat) {
    p <= end + 1 && end < |s| && s[end] == QUOTE
  }

  function StepAt(s: bytes, p: nat, end: nat): (r: Step)
    requires Literal(s, p, end) && p < end
    ensures p + r.length <= end + 1
  {
    if s[p] != BACKSLASH then Step(1, [s[p]])
    else if s[p + 1] == 117 then Utf16Literal(s, p, end)
    else match ShortEscape(s[p + 1])
      case Some(c) => Step(2, [c])
      case None => FAILED
  }

  /** Outcome of the second pass: the bytes written, or the position of the escape that failed. */
  datatype Unescaped = Good(out: bytes) | Bad(at: nat)

  function Unescape(s: bytes, p: nat, end: nat): (r: Unescaped)
    requires Literal(s, p, end)
    ensures r.Bad? ==> p <= r.at < end
    decreases end + 1 - p
  {
    if p >= end then Good([])
    else
      var step := StepAt(s, p, end);
      if step.length == 0 then Bad(p)
      else Prepend(step.out, Unescape(s, p + step.length, end))
  }

  function Prepend(written: bytes, rest: Unescaped): Unescaped {
    match rest
    case Good(out) => Good(written + out)
    case Bad(at) => Bad(at)
  }

  lemma PrependTwice(a: bytes, b: bytes, rest: Unescaped)
    ensures Prepend(a, Prepend(b, rest)) == Prepend(a + b, rest)
  {
    if rest.Good? {
      assert a + (b + rest.out) == a + b + rest.out;
    }
  }

  lemma UnescapeOnce(s: bytes, p: nat, end: nat)
    requires Literal(s, p, end)
    ensures p >= end ==> Unescape(s, p, end) == Good([])
    ensures p < end ==> var step := StepAt(s, p, end);
                        Unescape(s, p, end) == if step.length == 0 then Bad(p)
                                               else Prepend(step.out, Unescape(s, p + step.length, end))
  {
    hide StepAt;
  }

  // ---- the first pass ----

  /** Where the first pass finds the closing quote, skipping the byte after every backslash. */
  function Scan(s: bytes, p: nat): (r: Option<nat>)
    ensures r.Some? ==> p <= r.value < |s| && s[r.value] == QUOTE
    decreases |s| - p
  {
    if p >= |s| then None
    else if s[p] == QUOTE then Some(p)
    else if s[p] == BACKSLASH then
      if p + 1 >= |s| then None else Scan(s, p + 2)
    else Scan(s, p + 1)
  }

  /** Steps the first pass takes from p to end: what it estimates for the output. */
  function Units(s: bytes, p: nat, end: nat): (n: nat)
    requires end <= |s|
    ensures p < end ==> end - p <= 2 * n
    decreases end - p
  {
    if p >= end then 0
    else 1 + Units(s, if s[p] == BACKSLASH then p + 2 else p + 1, end)
  }

  // ---- the estimate holds although the passes may disagree ----

  /** The first pass stands at q; the second at p is either there or inside the escape at q. */
  predicate Near(s: bytes, p: nat, q: nat, end: nat) {
    && q <= end < |s|
    && Scan(s, q) == Some(end)
    && (p == q || (p == q + 1 && s[q] == BACKSLASH && q < end))
  }

  /** Walks the first pass from q up to t: each of its steps covers at most two bytes. */
  lemma {:induction false} Walk(s: bytes, q: nat, t: nat, end: nat) returns (q': nat)
    requires q <= t <= end < |s| && Scan(s, q) == Some(end)
    ensures Near(s, t, q', end) && q <= q'
    ensures q' - q <= 2 * (Units(s, q, end) - Units(s, q', end))
    decreases t - q
  {
    if t == q || (t == q + 1 && s[q] == BACKSLASH) {
      q' := q;
    } else if s[q] == BACKSLASH {
      q' := Walk(s, q + 2, t, end);
    } else {
      q' := Walk(s, q + 1, t, end);
    }
  }

  /** One step of the second pass writes no more bytes than the first pass has counted on the way. */
  lemma {:induction false} StepWithinEstimate(s: bytes, p: nat, q: nat, end: nat) returns (q': nat)
    requires Literal(s, p, end) && p < end && Near(s, p, q, end)
    requires StepAt(s, p, end).length > 0
    ensures var step := StepAt(s, p, end);
            (Near(s, p + step.length, q', end) || (p + step.length == end + 1 && q' == end))
            && |step.out| + Units(s, q', end) <= Units(s, q, end)
  {
    var step := StepAt(s, p, end);
    if p + step.length <= end {
      q' := Walk(s, q, p + step.length, end);
    } else {
      q' := end;
    }
  }

  /** Whatever the escapes, the output fits what the first pass estimated. */
  lemma {:induction false} OutputWithinEstimate(s: bytes, p: nat, q: nat, end: nat)
    requires Literal(s, p, end)
    requires Near(s, p, q, end) || (p == end + 1 && q == end)
    ensures Unescape(s, p, end).Good? ==> |Unescape(s, p, end).out| <= Units(s, q, end)
    decreases end + 1 - p
  {
    if p < end {
      var step := StepAt(s, p, end);
      if step.length > 0 {
        var q' := StepWithinEstimate(s, p, q, end);
        OutputWithinEstimate(s, p + step.length, q', end);
      }
    }
  }

  // ---- well-formed literals ----

  /** The characters of a literal as section 7 of RFC 8259 spells them; raw control bytes are let in. */
  datatype Piece =
    | Plain(c: byte)
    | Short(c: byte)
    | Bmp(digits: bytes)
    | Surrogates(high: bytes, low: bytes)

  predicate WellFormed(piece: Piece) {
    match piece
    case Plain(c) => c != QUOTE && c != BACKSLASH
    case Short(c) => ShortEscape(c).Some?
    case Bmp(digits) =>
      |digits| == 4 && HexDigits(digits, 0) && !HighSurrogate(Hex4(digits, 0)) && !LowSurrogate(Hex4(digits, 0))
    case Surrogates(high, low) =>
      && |high| == 4 && HexDigits(high, 0) && HighSurrogate(Hex4(high, 0))
      && |low| == 4 && HexDigits(low, 0) && LowSurrogate(Hex4(low, 0))
  }

  predicate AllWellFormed(pieces: seq<Piece>) {
    forall k :: 0 <= k < |pieces| ==> WellFormed(pieces[k])
  }

  function SpellPiece(piece: Piece): bytes {
    match piece
    case Plain(c) => [c]
    case Short(c) => [BACKSLASH, c]
    case Bmp(digits) => [BACKSLASH, 117] + digits
    case Surrogates(high, low) => [BACKSLASH, 117] + high + [BACKSLASH, 117] + low
  }

  function PieceMeaning(piece: Piece): bytes
    requires WellFormed(piece)
  {
    match piece
    case Plain(c) => [c]
    case Short(c) => [ShortEscape(c).value]
    case Bmp(digits) => Utf8(Hex4(digits, 0))
    case Surrogates(high, low) => Utf8(Combine(Hex4(high, 0), Hex4(low, 0)))
  }

  function Spell(pieces: seq<Piece>): bytes {
    if pieces == [] then [] else SpellPiece(pieces[0]) + Spell(pieces[1..])
  }

  function Meaning(pieces: seq<Piece>): bytes
    requires AllWellFormed(pieces)
  {
    if pieces == [] then [] else PieceMeaning(pieces[0]) + Meaning(pieces[1..])
  }

  /** s holds text at position p. */
  predicate At(s: bytes, p: nat, text: bytes) {
    p + |text| <= |s| && forall k :: 0 <= k < |text| ==> s[p + k] == text[k]
  }

  lemma AtSplit(s: bytes, p: nat, a: bytes, b: bytes)
    ensures At(s, p, a + b) <==> At(s, p, a) && At(s, p + |a|, b)
  {
    if At(s, p, a + b) {
      forall k | 0 <= k < |a| ensures s[p + k] == a[k] {
        assert s[p + k] == (a + b)[k];
      }
      forall k | 0 <= k < |b| ensures s[p + |a| + k] == b[k] {
        assert s[p + (|a| + k)] == (a + b)[|a| + k];
      }
    }
    if At(s, p, a) && At(s, p + |a|, b) {
      forall k | 0 <= k < |a + b| ensures s[p + k] == (a + b)[k] {
        if k >= |a| {
          assert s[p + |a| + (k - |a|)] == b[k - |a|];
        }
      }
    }
  }

  lemma AtSplit3(s: bytes, p: nat, a: bytes, b: bytes, c: bytes)
    requires At(s, p, a + b + c)
    ensures At(s, p, a) && At(s, p + |a|, b) && At(s, p + |a| + |b|, c)
  {
    AtSplit(s, p, a + b, c);
    AtSplit(s, p, a, b);
  }

  lemma AtByte(s: bytes, p: nat, text: bytes, k: nat)
    requires At(s, p, text) && k < |text|
    ensures p + k < |s| && s[p + k] == text[k]
  {
  }

  lemma {:induction false} HexSame(s: bytes, at: nat, t: bytes, n: nat)
    requires At(s, at, t) && n <= |t|
    ensures HexPrefix(s, at, n) == HexPrefix(t, 0, n)
  {
    if n > 0 {
      HexSame(s, at, t, n - 1);
      AtByte(s, at, t, n - 1);
    }
  }

  /** Both passes take one well-formed piece whole. */
  lemma {:induction false} PieceStep(s: bytes, p: nat, piece: Piece, end: nat)
    requires Literal(s, p, end) && WellFormed(piece) && At(s, p, SpellPiece(piece)) && p + |SpellPiece(piece)| <= end
    ensures p < end && StepAt(s, p, end) == Step(|SpellPiece(piece)|, PieceMeaning(piece))
    ensures Scan(s, p) == Scan(s, p + |SpellPiece(piece)|)
  {
    AtByte(s, p, SpellPiece(piece), 0);
    match piece {
      case Plain(c) =>
      case Short(c) =>
        AtByte(s, p, SpellPiece(piece), 1);
      case Bmp(digits) =>
        HexEscape(s, p, digits);
      case Surrogates(high, low) =>
        assert SpellPiece(piece) == [BACKSLASH, 117] + high + ([BACKSLASH, 117] + low);
        AtSplit(s, p, [BACKSLASH, 117] + high, [BACKSLASH, 117] + low);
        HexEscape(s, p, high);
        HexEscape(s, p + 6, low);
    }
  }

  /** One escape with valid digits: its value, and how the first pass runs over it. */
  lemma HexEscape(s: bytes, p: nat, digits: bytes)
    requires |digits| == 4 && HexDigits(digits, 0) && At(s, p, [BACKSLASH, 117] + digits)
    ensures p + 6 <= |s| && s[p] == BACKSLASH && s[p + 1] == 117
    ensures HexDigits(s, p + 2) && Hex4(s, p + 2) == Hex4(digits, 0)
    ensures Scan(s, p) == Scan(s, p + 6)
  {
    AtByte(s, p, [BACKSLASH, 117] + digits, 0);
    AtByte(s, p, [BACKSLASH, 117] + digits, 1);
    AtSplit(s, p, [BACKSLASH, 117], digits);
    HexSame(s, p + 2, digits, 4);
    HexIsPlain(s, p + 2, 4);
  }

  /** The first pass runs over valid digits one by one. */
  lemma {:induction false} HexIsPlain(s: bytes, at: nat, n: nat)
    requires at + n <= |s| && HexPrefix(s, at, n) >= 0
    ensures Scan(s, at) == Scan(s, at + n)
  {
    if n > 0 {
      HexIsPlain(s, at, n - 1);
    }
  }

  lemma ConsPiece(piece: Piece, rest: seq<Piece>)
    requires WellFormed(piece) && AllWellFormed(rest)
    ensures var pieces := [piece] + rest;
            && AllWellFormed(pieces) && Spell(pieces) == SpellPiece(piece) + Spell(rest)
            && Meaning(pieces) == PieceMeaning(piece) + Meaning(rest)
  {
    assert ([piece] + rest)[1..] == rest;
  }

  lemma NoPieces()
    ensures Spell([]) == [] && Meaning([]) == []
  {
  }

  lemma TakePiece(s: bytes, p: nat, piece: Piece, end: nat, rest: bytes)
    requires Literal(s, p, end) && WellFormed(piece) && At(s, p, SpellPiece(piece)) && p + |SpellPiece(piece)| <= end
    requires Unescape(s, p + |SpellPiece(piece)|, end) == Good(rest)
    ensures Unescape(s, p, end) == Good(PieceMeaning(piece) + rest)
    ensures Scan(s, p) == Scan(s, p + |SpellPiece(piece)|)
  {
    PieceStep(s, p, piece, end);
  }

  /** A well-formed literal is accepted whole, and its value is its unescaping. */
  lemma {:induction false} WellFormedLiteral(s: bytes, p: nat, pieces: seq<Piece>)
    requires AllWellFormed(pieces) && At(s, p, Spell(pieces))
    requires p + |Spell(pieces)| < |s| && s[p + |Spell(pieces)|] == QUOTE
    ensures Scan(s, p) == Some(p + |Spell(pieces)|)
    ensures Unescape(s, p, p + |Spell(pieces)|) == Good(Meaning(pieces))
    decreases |pieces|
  {
    hide At, PieceMeaning, SpellPiece, StepAt;
    var end := p + |Spell(pieces)|;
    if pieces != [] {
      var piece, rest := pieces[0], pieces[1..];
      AtSplit(s, p, SpellPiece(piece), Spell(rest));
      WellFormedLiteral(s, p + |SpellPiece(piece)|, rest);
      TakePiece(s, p, piece, end, Meaning(rest));
    }
  }

  /** No escape the second pass meets has a bad hexadecimal digit. */
  predicate DigitsGood(s: bytes, p: nat, end: nat)
    requires Literal(s, p, end)
    decreases end + 1 - p
  {
    p < end ==>
      var step := StepAt(s, p, end);
      && (step.length >= 6 ==> HexDigits(s, p + 2))
      && (step.length == 12 ==> HexDigits(s, p + 8))
      && (step.length > 0 ==> DigitsGood(s, p + step.length, end))
  }

  /** A literal both passes accept without meeting a bad digit is well-formed. */
  lemma {:induction false} AcceptedIsWellFormed(s: bytes, p: nat, end: nat) returns (pieces: seq<Piece>)
    requires Literal(s, p, end) && Scan(s, p) == Some(end) && DigitsGood(s, p, end)
    requires Unescape(s, p, end).Good?
    ensures AllWellFormed(pieces) && Spell(pieces) == s[p..end]
    ensures Unescape(s, p, end) == Good(Meaning(pieces))
    decreases end - p
  {
    hide PieceMeaning, SpellPiece, StepAt, Scan, WellFormed, At, Unescape, Spell, Meaning;
    UnescapeOnce(s, p, end);
    if p == end {
      pieces := [];
      NoPieces();
    } else {
      var piece := PieceAt(s, p, end);
      var next := p + |SpellPiece(piece)|;
      var rest := AcceptedIsWellFormed(s, next, end);
      pieces := [piece] + rest;
      ConsPiece(piece, rest);
      JoinSlices(s, p, next, end);
    }
  }

  lemma JoinSlices(s: bytes, p: nat, m: nat, end: nat)
    requires p <= m <= end <= |s|
    ensures s[p..m] + s[m..end] == s[p..end]
  {
  }

  lemma {:induction false} PieceAt(s: bytes, p: nat, end: nat) returns (piece: Piece)
    requires Literal(s, p, end) && p < end && Scan(s, p) == Some(end) && DigitsGood(s, p, end)
    requires StepAt(s, p, end).length > 0
    ensures WellFormed(piece) && p + |SpellPiece(piece)| <= end && At(s, p, SpellPiece(piece))
    ensures StepAt(s, p, end) == Step(|SpellPiece(piece)|, PieceMeaning(piece))
    ensures Scan(s, p + |SpellPiece(piece)|) == Some(end)
  {
    var length := StepAt(s, p, end).length;
    if length == 1 {
      piece := Plain(s[p]);
    } else if length == 2 {
      piece := Short(s[p + 1]);
    } else if length == 6 {
      piece := BmpAt(s, p, end);
    } else {
      piece := PairAt(s, p, end);
    }
    PieceStep(s, p, piece, end);
  }

  lemma BmpAt(s: bytes, p: nat, end: nat) returns (piece: Piece)
    requires Literal(s, p, end) && p < end && DigitsGood(s, p, end) && StepAt(s, p, end).length == 6
    ensures WellFormed(piece) && p + |SpellPiece(piece)| <= end && At(s, p, SpellPiece(piece))
  {
    hide HexPrefix, Utf8, HexValue;
    var digits := s[p + 2..p + 6];
    piece := Bmp(digits);
    HexSame(s, p + 2, digits, 4);
    assert s[p..p + 6] == [BACKSLASH, 117] + digits;
  }

  lemma PairAt(s: bytes, p: nat, end: nat) returns (piece: Piece)
    requires Literal(s, p, end) && p < end && DigitsGood(s, p, end) && StepAt(s, p, end).length == 12
    ensures WellFormed(piece) && p + |SpellPiece(piece)| <= end && At(s, p, SpellPiece(piece))
  {
    hide HexPrefix, Utf8, HexValue;
    var high, low := s[p + 2..p + 6], s[p + 8..p + 12];
    piece := Surrogates(high, low);
    HexSame(s, p + 2, high, 4);
    HexSame(s, p + 8, low, 4);
    assert s[p..p + 12] == [BACKSLASH, 117] + high + [BACKSLASH, 117] + low;
  }

  // ---- what the printer escapes, the parser unescapes ----

  function PieceOf(c: nonzero): Piece {
    if c == QUOTE || c == BACKSLASH then Short(c)
    else if c == 8 then Short(98)
    else if c == 12 then Short(102)
    else if c == NEWLINE then Short(110)
    else if c == RETURN then Short(114)
    else if c == TAB then Short(116)
    else if c < 32 then Bmp([48, 48, HexChar(c / 16), HexChar(c % 16)])
    else Plain(c)
  }

  function PiecesOf(s: CString): (r: seq<Piece>)
    ensures |r| == |s| && forall k :: 0 <= k < |s| ==> r[k] == PieceOf(s[k])
  {
    seq(|s|, k requires 0 <= k < |s| => PieceOf(s[k]))
  }

  lemma {:induction false} EscapedByte(c: nonzero)
    ensures WellFormed(PieceOf(c)) && SpellPiece(PieceOf(c)) == EscapeByte(c) && PieceMeaning(PieceOf(c)) == [c]
  {
    if c < 32 {
      var d: bytes := [48, 48, HexChar(c / 16), HexChar(c % 16)];
      assert HexValue(d[2]) == c / 16 && HexValue(d[3]) == c % 16;
      assert HexPrefix(d, 0, 1) == 0 && HexPrefix(d, 0, 2) == 0;
      assert HexPrefix(d, 0, 3) == c / 16 && HexPrefix(d, 0, 4) == c;
    }
  }

  lemma {:induction false} EscapedString(s: CString)
    ensures AllWellFormed(PiecesOf(s)) && Spell(PiecesOf(s)) == Escape(s) && Meaning(PiecesOf(s)) == s
  {
    forall k | 0 <= k < |s| ensures WellFormed(PieceOf(s[k])) {
      EscapedByte(s[k]);
    }
    if s != [] {
      EscapedByte(s[0]);
      EscapedString(s[1..]);
      assert PiecesOf(s)[1..] == PiecesOf(s[1..]);
    }
  }

  /** Both passes over a printed string recover it. */
  lemma QuotedParses(s: bytes, p: nat, chars: CString)
    requires At(s, p, Quoted(chars))
    ensures var end := p + 1 + |Escape(chars)|;
            && Scan(s, p + 1) == Some(end)
            && Unescape(s, p + 1, end) == Good(chars)
  {
    hide Scan, Unescape, Escape, Spell, Meaning, At;
    EscapedString(chars);
    AtSplit3(s, p, [QUOTE], Escape(chars), [QUOTE]);
    AtByte(s, p + 1 + |Escape(chars)|, [QUOTE], 0);
    WellFormedLiteral(s, p + 1, PiecesOf(chars));
  }
}
