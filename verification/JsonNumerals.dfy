/** The numbers strtod takes, in the C locale and over the number alphabet: an optional sign, digits with at most
    one point and at least one digit, and an exponent if it is complete.  The scan takes the longest beginning of
    the text that is such a number. */
module JsonNumerals {
  import opened Bytes
  import opened JsonText

  datatype Exponent = Exponent(mark: byte, sign: bytes, digits: bytes)

  datatype Float = Float(sign: bytes, whole: bytes, fraction: Option<bytes>, exponent: Option<Exponent>)

  predicate Digits(s: bytes) {
    forall k :: 0 <= k < |s| ==> '0' as int <= s[k] <= '9' as int
  }

  predicate Sign(s: bytes) {
    s == [] || s == ['+' as int] || s == ['-' as int]
  }

  predicate IsFloat(f: Float) {
    && Sign(f.sign) && Digits(f.whole)
    && (f.fraction.Some? ==> Digits(f.fraction.value))
    && (f.whole != [] || (f.fraction.Some? && f.fraction.value != []))
    && (f.exponent.Some? ==>
          var x := f.exponent.value;
          (x.mark == 'e' as int || x.mark == 'E' as int) && Sign(x.sign) && x.digits != [] && Digits(x.digits))
  }

  function Mantissa(f: Float): bytes {
    f.sign + (f.whole + if f.fraction.Some? then ['.' as int] + f.fraction.value else [])
  }

  function Tail(f: Float): bytes {
    if f.exponent.Some? then [f.exponent.value.mark] + (f.exponent.value.sign + f.exponent.value.digits) else []
  }

  function Spell(f: Float): bytes {
    Mantissa(f) + Tail(f)
  }

  /** s holds part at i. */
  predicate Has(s: bytes, i: nat, part: bytes) {
    i + |part| <= |s| && s[i..i + |part|] == part
  }

  lemma HasBoth(s: bytes, i: nat, a: bytes, b: bytes)
    ensures Has(s, i, a + b) <==> Has(s, i, a) && Has(s, i + |a|, b)
  {
    if i + |a| + |b| <= |s| {
      assert s[i..i + |a + b|] == s[i..i + |a|] + s[i + |a|..i + |a| + |b|];
      assert (a + b)[..|a|] == a && (a + b)[|a|..] == b;
    }
  }

  lemma HasByte(s: bytes, i: nat, a: bytes, k: nat)
    requires Has(s, i, a) && k < |a|
    ensures i + k < |s| && s[i + k] == a[k]
  {
    assert s[i..i + |a|][k] == s[i + k];
  }

  /** Digits are taken at least as far as they are known. */
  lemma {:induction false} DigitsTaken(s: bytes, i: nat, digits: bytes)
    requires Has(s, i, digits) && Digits(digits)
    ensures DigitsEnd(s, i) >= i + |digits|
    ensures i + |digits| == |s| || !IsDigit(s[i + |digits|]) ==> DigitsEnd(s, i) == i + |digits|
    decreases |digits|
  {
    if digits != [] {
      HasByte(s, i, digits, 0);
      HasBoth(s, i, [digits[0]], digits[1..]);
      assert [digits[0]] + digits[1..] == digits;
      DigitsTaken(s, i + 1, digits[1..]);
    }
  }

  lemma {:induction false} TakenDigits(s: bytes, i: nat)
    requires i <= |s|
    ensures Digits(s[i..DigitsEnd(s, i)]) && Has(s, i, s[i..DigitsEnd(s, i)])
    decreases |s| - i
  {
    if i < |s| && IsDigit(s[i]) {
      TakenDigits(s, i + 1);
      var e := DigitsEnd(s, i + 1);
      assert s[i..e] == [s[i]] + s[i + 1..e];
    }
  }

  /** What the scan takes is a number. */
  lemma StrtodTakesFloat(s: bytes) returns (f: Float)
    requires StrtodEnd(s) > 0
    ensures IsFloat(f) && Spell(f) == s[..StrtodEnd(s)]
  {
    hide DigitsEnd, FractionEnd, ExponentEnd, Digits;
    var a := SignEnd(s);
    var b := DigitsEnd(s, a);
    var c := FractionEnd(s, b);
    TakenDigits(s, a);
    var fraction := PointTaken(s, b);
    var exponent := ExponentTaken(s, c);
    f := Float(s[..a], s[a..b], fraction, exponent);
    Rejoined(s, a, b, c, ExponentEnd(s, c));
  }

  lemma Rejoined(s: bytes, a: nat, b: nat, c: nat, e: nat)
    requires a <= b <= c <= e <= |s|
    ensures s[..a] + (s[a..b] + s[b..c]) + s[c..e] == s[..e]
  {
  }

  /** The point and the digits behind it, if there is one. */
  lemma PointTaken(s: bytes, b: nat) returns (fraction: Option<bytes>)
    requires b <= |s|
    ensures FractionEnd(s, b) == b ==> fraction == None
    ensures var c := FractionEnd(s, b);
            c > b ==> fraction.Some? && Digits(fraction.value) && s[b..c] == [DOT] + fraction.value && |fraction.value| == c - b - 1
  {
    hide DigitsEnd;
    var c := FractionEnd(s, b);
    fraction := None;
    if c > b {
      TakenDigits(s, b + 1);
      fraction := Some(s[b + 1..c]);
      assert s[b..c] == [DOT] + s[b + 1..c];
    }
  }

  lemma ExponentTaken(s: bytes, c: nat) returns (x: Option<Exponent>)
    requires c <= |s|
    ensures ExponentEnd(s, c) == c ==> x == None
    ensures ExponentEnd(s, c) > c ==>
              && x.Some? && (x.value.mark == 'e' as int || x.value.mark == 'E' as int) && Sign(x.value.sign)
              && x.value.digits != [] && Digits(x.value.digits)
              && s[c..ExponentEnd(s, c)] == [x.value.mark] + (x.value.sign + x.value.digits)
  {
    hide DigitsEnd;
    var e := ExponentEnd(s, c);
    x := None;
    if e > c {
      var d := if s[c + 1] == PLUS || s[c + 1] == MINUS then c + 2 else c + 1;
      TakenDigits(s, d);
      x := Some(Exponent(s[c], s[c + 1..d], s[d..e]));
      assert s[c..e] == [s[c]] + (s[c + 1..d] + s[d..e]);
    }
  }

  /** And no longer beginning of the text is one. */
  lemma StrtodTakesLongest(s: bytes, f: Float)
    requires IsFloat(f) && Spell(f) <= s
    ensures |Spell(f)| <= StrtodEnd(s)
  {
    hide Spell, Mantissa, Tail, IsFloat, SignEnd, DigitsEnd, FractionEnd, ExponentEnd, Has;
    PartsHeld(s, f);
    SignTaken(s, f);
    WholeTaken(s, f);
    if f.fraction.Some? || f.exponent.Some? {
      FractionTaken(s, f, |f.sign| + |f.whole|);
    }
    if f.exponent.Some? {
      TailTaken(s, f, |Mantissa(f)|);
    }
  }

  lemma PartsHeld(s: bytes, f: Float)
    requires Spell(f) <= s
    ensures Has(s, 0, Spell(f)) && Has(s, 0, Mantissa(f)) && Has(s, |Mantissa(f)|, Tail(f)) && Has(s, |f.sign|, f.whole)
    ensures |f.sign| + |f.whole| <= |Mantissa(f)| <= |s|
  {
    assert s[0..|Spell(f)|] == Spell(f);
    assert Has(s, 0, Spell(f));
    hide Has;
    var point := if f.fraction.Some? then [DOT] + f.fraction.value else [];
    HasBoth(s, 0, Mantissa(f), Tail(f));
    HasBoth(s, 0, f.sign, f.whole + point);
    HasBoth(s, |f.sign|, f.whole, point);
  }

  lemma SignTaken(s: bytes, f: Float)
    requires IsFloat(f) && Has(s, 0, Mantissa(f))
    ensures SignEnd(s) == |f.sign|
  {
    HasByte(s, 0, Mantissa(f), 0);
  }

  /** The digits in front of the point, exactly if something stands behind them. */
  lemma WholeTaken(s: bytes, f: Float)
    requires IsFloat(f) && Has(s, |f.sign|, f.whole) && Has(s, 0, Spell(f))
    ensures var a := |f.sign|;
            && DigitsEnd(s, a) >= a + |f.whole|
            && (f.fraction.Some? || f.exponent.Some? ==> DigitsEnd(s, a) == a + |f.whole|)
            && (f.fraction.None? ==> f.whole != [])
            && |Mantissa(f)| == a + |f.whole| + (if f.fraction.Some? then 1 + |f.fraction.value| else 0)
            && |Spell(f)| == |Mantissa(f)| + |Tail(f)| && (f.exponent.None? ==> Tail(f) == [])
            && (f.whole == [] ==> f.fraction.Some? && f.fraction.value != [])
  {
    var n := |f.sign| + |f.whole|;
    DigitsTaken(s, |f.sign|, f.whole);
    if f.fraction.Some? || f.exponent.Some? {
      HasByte(s, 0, Spell(f), n);
      assert Spell(f)[n] == if f.fraction.Some? then DOT else f.exponent.value.mark;
    }
  }

  lemma FractionTaken(s: bytes, f: Float, w: nat)
    requires IsFloat(f) && w == |f.sign| + |f.whole| && w <= |s| && Has(s, 0, Spell(f))
    ensures FractionEnd(s, w) >= |Mantissa(f)|
    ensures f.exponent.Some? ==> FractionEnd(s, w) == |Mantissa(f)|
  {
    MantissaLength(f);
    hide Has, DigitsEnd, Mantissa, Spell, Tail;
    if f.exponent.Some? {
      MarkBehind(s, f);
    }
    if f.fraction.Some? {
      PointBehind(s, f, w);
      DigitsTaken(s, w + 1, f.fraction.value);
    }
  }

  lemma MantissaLength(f: Float)
    ensures |Mantissa(f)| == |f.sign| + |f.whole| + if f.fraction.Some? then 1 + |f.fraction.value| else 0
  {
  }

  lemma MarkBehind(s: bytes, f: Float)
    requires f.exponent.Some? && Has(s, 0, Spell(f))
    ensures |Mantissa(f)| < |s| && s[|Mantissa(f)|] == f.exponent.value.mark
  {
    HasByte(s, 0, Spell(f), |Mantissa(f)|);
  }

  lemma PointBehind(s: bytes, f: Float, w: nat)
    requires f.fraction.Some? && w == |f.sign| + |f.whole| && Has(s, 0, Spell(f))
    ensures w < |s| && s[w] == DOT && Has(s, w + 1, f.fraction.value) && |Mantissa(f)| == w + 1 + |f.fraction.value|
  {
    HasByte(s, 0, Spell(f), w);
    hide Has;
    HasBoth(s, 0, Mantissa(f), Tail(f));
    assert Mantissa(f) == (f.sign + f.whole + [DOT]) + f.fraction.value;
    HasBoth(s, 0, f.sign + f.whole + [DOT], f.fraction.value);
  }

  lemma TailTaken(s: bytes, f: Float, m: nat)
    requires IsFloat(f) && f.exponent.Some? && Has(s, m, Tail(f))
    ensures ExponentEnd(s, m) >= m + |Tail(f)|
  {
    hide Has, DigitsEnd;
    var x := f.exponent.value;
    HasBoth(s, m, [x.mark], x.sign + x.digits);
    HasBoth(s, m + 1, x.sign, x.digits);
    HasByte(s, m, Tail(f), 0);
    HasByte(s, m + 1 + |x.sign|, x.digits, 0);
    if x.sign != [] {
      HasByte(s, m + 1, x.sign, 0);
    }
    DigitsTaken(s, m + 1 + |x.sign|, x.digits);
  }

  /** The number texts of a tree are the numbers of at most 63 bytes that begin with a minus or a digit. */
  lemma NumeralIsFloat(s: CString)
    ensures IsNumeral(s) <==> 0 < |s| <= 63 && (s[0] == '-' as int || '0' as int <= s[0] <= '9' as int)
                              && exists f: Float :: IsFloat(f) && Spell(f) == s
  {
    if IsNumeral(s) {
      var f := StrtodTakesFloat(s);
      assert s[..|s|] == s;
    }
    if f: Float :| IsFloat(f) && Spell(f) == s {
      StrtodTakesLongest(s, f);
      forall k | 0 <= k < |s| ensures NumberChar(s[k]) {
        SpelledChar(f, k);
      }
    }
  }

  lemma SpelledChar(f: Float, k: nat)
    requires IsFloat(f) && k < |Spell(f)|
    ensures NumberChar(Spell(f)[k])
  {
    var m := |Mantissa(f)|;
    if k < m {
      assert Spell(f)[k] == Mantissa(f)[k];
    } else {
      assert Spell(f)[k] == Tail(f)[k - m];
    }
  }
}
