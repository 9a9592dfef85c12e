/** Minifying changes no text's meaning: what the parser reads from a text it reads from the minified text,
    and texts it accepts have no string or comment left open. */
module JsonMinifyParse {
  import opened Bytes
  import opened JsonText
  import opened JsonString
  import opened JsonParser
  import opened JsonRoundTrip
  import opened JsonMinify
  import opened JsonMinifyText

  /** The rest of the text from i on, minified, is what t ends with. */
  predicate Ends(value: bytes, i: nat, t: bytes) {
    && i <= |value| && Minified(value, i).Some?
    && |t| > |Minified(value, i).value|
    && t[Place(value, i, t)..] == Minified(value, i).value + [NUL]
  }

  /** Where position i of the text has gone. */
  function Place(value: bytes, i: nat, t: bytes): int
    requires i <= |value| && Minified(value, i).Some?
  {
    |t| - 1 - |Minified(value, i).value|
  }

  /** From i on no string and no comment is left open, exactly if none is from k on. */
  predicate SameFate(value: bytes, i: nat, k: nat) {
    i <= |value| && k <= |value| && (Minified(value, i).Some? <==> Minified(value, k).Some?)
  }

  /** t ends with out and the rest from k on. */
  lemma Advance(value: bytes, i: nat, k: nat, out: bytes, t: bytes)
    requires i <= k <= |value| && Minified(value, i) == Behind(out, Minified(value, k))
    ensures SameFate(value, i, k)
    ensures Ends(value, i, t) ==>
              && Ends(value, k, t) && Place(value, k, t) == Place(value, i, t) + |out|
              && t[Place(value, i, t)..Place(value, k, t)] == out
  {
    hide Minified;
    if Ends(value, i, t) {
      var p, rest := Place(value, i, t), Minified(value, k).value;
      assert t[p..] == out + rest + [NUL];
      assert t[p..p + |out|] == t[p..][..|out|] == out;
      assert t[p + |out|..] == t[p..][|out|..] == rest + [NUL];
    }
  }

  lemma PlainStep(value: bytes, i: nat, t: bytes)
    requires i < |value| && JsonMinifyText.Plain(value[i])
    ensures SameFate(value, i, i + 1)
    ensures Ends(value, i, t) ==>
              Ends(value, i + 1, t) && Place(value, i + 1, t) == Place(value, i, t) + 1 && t[Place(value, i, t)] == value[i]
  {
    Advance(value, i, i + 1, [value[i]], t);
  }

  lemma SpaceStep(value: bytes, i: nat, t: bytes)
    requires i < |value| && Space(value[i])
    ensures Minified(value, i) == Minified(value, i + 1)
  {
  }

  /** A byte that is neither whitespace nor a slash is the next one kept. */
  lemma HeadByte(value: bytes, i: nat, t: bytes)
    requires i < |value| && !Space(value[i]) && value[i] != SLASH && Ends(value, i, t)
    ensures t[Place(value, i, t)] == value[i]
  {
    var p := Place(value, i, t);
    assert t[p] == t[p..][0];
  }

  /** Stepping over whitespace leads to the same place before and after minifying. */
  lemma {:induction false} SkipCorresponds(value: bytes, c: bytes, i: nat, t: bytes)
    requires c == value + [NUL] && i <= |value|
    requires var j := Skip(c, i); j == |value| || value[j] != SLASH
    ensures SameFate(value, i, Skip(c, i))
    ensures var j := Skip(c, i);
            Ends(value, i, t) ==> Ends(value, j, t) && Skip(t, Place(value, i, t)) == Place(value, j, t) && t[Place(value, j, t)] == c[j]
    decreases |value| - i
  {
    hide Minified;
    if i == |value| {
      EndByte(value, t);
    } else if c[i] > 32 {
      if Ends(value, i, t) {
        HeadByte(value, i, t);
      }
    } else {
      SkipCorresponds(value, c, i + 1, t);
      if Space(value[i]) {
        SpaceStep(value, i, t);
      } else {
        PlainStep(value, i, t);
      }
    }
  }

  lemma EndByte(value: bytes, t: bytes)
    ensures Minified(value, |value|) == Some([])
    ensures Ends(value, |value|, t) ==> Place(value, |value|, t) == |t| - 1 && t[|t| - 1] == NUL
  {
    if Ends(value, |value|, t) {
      assert t[|t| - 1..] == [NUL];
    }
  }

  // ---- strings ----

  /** The NUL behind the text takes no part in a string that is closed. */
  lemma {:induction false} ScanWithin(value: bytes, c: bytes, p: nat)
    requires c == value + [NUL] && Scan(c, p).Some?
    ensures Scan(c, p).value < |value| && Scan(value, p) == Scan(c, p)
    decreases |c| - p
  {
    if c[p] == QUOTE {
    } else if c[p] == BACKSLASH {
      ScanWithin(value, c, p + 2);
    } else {
      ScanWithin(value, c, p + 1);
    }
  }

  /** n bytes of s from p on are the n bytes of t from q on. */
  predicate Same(s: bytes, p: nat, t: bytes, q: nat, n: nat) {
    p + n <= |s| && q + n <= |t| && s[p..p + n] == t[q..q + n]
  }

  lemma SameByte(s: bytes, p: nat, t: bytes, q: nat, n: nat, k: nat)
    requires Same(s, p, t, q, n) && k < n
    ensures p + k < |s| && q + n <= |t| && s[p + k] == t[q + k]
  {
    assert s[p..p + n][k] == t[q..q + n][k];
  }

  lemma SamePart(s: bytes, p: nat, t: bytes, q: nat, n: nat, k: nat, m: nat)
    requires Same(s, p, t, q, n) && k + m <= n
    ensures Same(s, p + k, t, q + k, m)
  {
    Slice(s, p, n, k, m);
    Slice(t, q, n, k, m);
  }

  lemma Slice(s: bytes, p: nat, n: nat, k: nat, m: nat)
    requires p + n <= |s| && k + m <= n
    ensures s[p..p + n][k..k + m] == s[p + k..p + k + m]
  {
    var whole, part := s[p..p + n], s[p + k..p + k + m];
    forall x | 0 <= x < m ensures whole[k..k + m][x] == part[x] {
      assert whole[k + x] == s[p + (k + x)];
    }
  }

  lemma {:induction false} ScanMoves(s: bytes, p: nat, t: bytes, q: nat, n: nat)
    requires Scan(s, p) == Some(p + n) && Same(s, p, t, q, n + 1)
    ensures Scan(t, q) == Some(q + n)
    decreases n
  {
    hide Same;
    SameByte(s, p, t, q, n + 1, 0);
    if s[p] == QUOTE {
    } else if s[p] == BACKSLASH {
      ScanFar(s, p + 2, p + n);
      SamePart(s, p, t, q, n + 1, 2, n - 1);
      ScanMoves(s, p + 2, t, q + 2, n - 2);
    } else {
      ScanFar(s, p + 1, p + n);
      SamePart(s, p, t, q, n + 1, 1, n);
      ScanMoves(s, p + 1, t, q + 1, n - 1);
    }
  }

  lemma ScanFar(s: bytes, p: nat, end: nat)
    requires Scan(s, p) == Some(end)
    ensures p <= end
  {
  }

  lemma {:induction false} HexMoves(s: bytes, p: nat, t: bytes, q: nat, n: nat)
    requires Same(s, p, t, q, n)
    ensures HexPrefix(s, p, n) == HexPrefix(t, q, n)
  {
    if n > 0 {
      SamePart(s, p, t, q, n, 0, n - 1);
      HexMoves(s, p, t, q, n - 1);
      SameByte(s, p, t, q, n, n - 1);
    }
  }

  lemma StepMoves(s: bytes, p: nat, t: bytes, q: nat, n: nat)
    requires Literal(s, p, p + n) && Literal(t, q, q + n) && Same(s, p, t, q, n + 1) && n > 0
    ensures StepAt(s, p, p + n) == StepAt(t, q, q + n)
  {
    hide Same, HexPrefix;
    SameByte(s, p, t, q, n + 1, 0);
    SameByte(s, p, t, q, n + 1, 1);
    if s[p] == BACKSLASH && s[p + 1] == 117 && n >= 6 {
      SamePart(s, p, t, q, n + 1, 2, 4);
      HexMoves(s, p + 2, t, q + 2, 4);
      if n >= 12 {
        SameByte(s, p, t, q, n + 1, 6);
        SameByte(s, p, t, q, n + 1, 7);
        SamePart(s, p, t, q, n + 1, 8, 4);
        HexMoves(s, p + 8, t, q + 8, 4);
      }
    }
  }

  lemma {:induction false} UnescapeMoves(s: bytes, p: nat, end: nat, t: bytes, q: nat, n: nat)
    requires p + n == end + 1 && Literal(s, p, end) && q + n <= |t| && (n > 0 ==> Same(s, p, t, q, n))
    requires q + n > 0 && t[q + n - 1] == QUOTE && Unescape(s, p, end).Good?
    ensures Unescape(t, q, q + n - 1) == Unescape(s, p, end)
    decreases n
  {
    hide StepAt, Same, Unescape;
    UnescapeOnce(s, p, end);
    UnescapeOnce(t, q, q + n - 1);
    if p < end {
      StepMoves(s, p, t, q, n - 1);
      var step := StepAt(s, p, end);
      SamePart(s, p, t, q, n, step.length, n - step.length);
      UnescapeMoves(s, p + step.length, end, t, q + step.length, n - step.length);
    }
  }

  lemma StringCorresponds(value: bytes, c: bytes, i: nat, depth: nat, t: bytes)
    requires c == value + [NUL] && i <= |value| && StringAt(c, i, depth).Ok?
    requires Terminated(t)
    ensures i < |value| && value[i] == QUOTE && SameFate(value, i, StringAt(c, i, depth).at)
    ensures var r := StringAt(c, i, depth);
            Ends(value, i, t) ==> Ends(value, r.at, t) && StringAt(t, Place(value, i, t), depth) == Ok(r.v, Place(value, r.at, t))
  {
    hide StringAt, Minified, Ends;
    var r := StringAt(c, i, depth);
    StringIsQuoted(value, c, i, depth);
    QuoteKept(value, i, r.at - 1);
    Advance(value, i, r.at, value[i..r.at], t);
    if Ends(value, i, t) {
      PlaceWithin(value, i, t);
      var p := Place(value, i, t);
      assert c[i..r.at] == value[i..r.at];
      PlaceWithin(value, r.at, t);
      StringMoves(c, i, depth, t, p);
    }
  }

  lemma PlaceWithin(value: bytes, k: nat, t: bytes)
    requires Ends(value, k, t)
    ensures k <= |value| && Minified(value, k).Some? && 0 <= Place(value, k, t) < |t|
  {
  }

  lemma StringIsQuoted(value: bytes, c: bytes, i: nat, depth: nat)
    requires c == value + [NUL] && i <= |value| && StringAt(c, i, depth).Ok?
    ensures i < |value| && value[i] == QUOTE && Scan(value, i + 1) == Some(StringAt(c, i, depth).at - 1)
  {
    hide Unescape, Scan;
    ScanWithin(value, c, i + 1);
  }

  lemma QuoteKept(value: bytes, i: nat, end: nat)
    requires i < |value| && value[i] == QUOTE && Scan(value, i + 1) == Some(end)
    ensures i < end < |value| && Minified(value, i) == Behind(value[i..end + 1], Minified(value, end + 1))
  {
    hide Scan;
  }

  /** A string literal is read alike wherever it stands. */
  lemma StringMoves(c: bytes, i: nat, depth: nat, t: bytes, p: nat)
    requires Terminated(c) && Terminated(t) && i < |c| && p < |t| && StringAt(c, i, depth).Ok?
    requires Same(c, i, t, p, StringAt(c, i, depth).at - i) && p + (StringAt(c, i, depth).at - i) < |t|
    ensures var r := StringAt(c, i, depth); StringAt(t, p, depth) == Ok(r.v, p + (r.at - i))
  {
    hide Unescape, Scan, Same;
    var n := StringAt(c, i, depth).at - i;
    var end := i + n - 1;
    SameByte(c, i, t, p, n, 0);
    SameByte(c, i, t, p, n, n - 1);
    SamePart(c, i, t, p, n, 1, n - 1);
    ScanMoves(c, i + 1, t, p + 1, n - 2);
    UnescapeMoves(c, i + 1, end, t, p + 1, n - 1);
  }

  // ---- what stands behind a value ----

  /** Behind the whitespace at k comes a mark or the end. */
  predicate Follows(c: bytes, k: nat)
    requires k < |c|
  {
    var j := Skip(c, k);
    j + 1 == |c| || c[j] == COMMA || c[j] == RBRACKET || c[j] == RBRACE
  }

  /** Such a place stays such a place, and no number runs into it. */
  lemma FollowsKept(value: bytes, c: bytes, k: nat, t: bytes)
    requires c == value + [NUL] && k <= |value| && Follows(c, k)
    ensures SameFate(value, k, Skip(c, k))
    ensures var j := Skip(c, k);
            Ends(value, k, t) ==> Ends(value, j, t) && Skip(t, Place(value, k, t)) == Place(value, j, t)
                                  && t[Place(value, j, t)] == c[j] && !NumberChar(t[Place(value, k, t)])
  {
    hide Minified, Ends;
    SkipCorresponds(value, c, k, t);
    if Ends(value, k, t) {
      PlaceWithin(value, k, t);
      PlaceWithin(value, Skip(c, k), t);
      SkipHead(t, Place(value, k, t));
    }
  }

  lemma SkipHead(s: bytes, i: nat)
    requires i < |s|
    ensures s[i] <= 32 || Skip(s, i) == i
  {
  }

  // ---- values ----

  /** A value starts with a byte that is kept and ends no list. */
  lemma ValueHead(c: bytes, i: nat, depth: nat)
    requires Terminated(c) && i < |c| && ValueAt(c, i, depth).Ok?
    ensures i + 1 < |c| && 32 < c[i] < 128 && c[i] != SLASH && c[i] != RBRACKET && c[i] != RBRACE
    ensures c[i] == LBRACKET ==> ValueAt(c, i, depth) == ArrayAt(c, i, depth)
    ensures c[i] == LBRACE ==> ValueAt(c, i, depth) == ObjectAt(c, i, depth)
  {
    hide StringAt, NumberAt, ArrayAt, ObjectAt;
    if WordAt(c, i, NULL_WORD) {
      AtByte(c, i, NULL_WORD, 0);
    }
    if WordAt(c, i, FALSE_WORD) {
      AtByte(c, i, FALSE_WORD, 0);
    }
    if WordAt(c, i, TRUE_WORD) {
      AtByte(c, i, TRUE_WORD, 0);
    }
  }

  /** Words and numbers: the text from i to the end of the value is plain and is read alike before
      anything that is no number character. */
  lemma ScalarCorresponds(value: bytes, c: bytes, i: nat, depth: nat, t: bytes)
    requires c == value + [NUL] && i <= |value| && ValueAt(c, i, depth).Ok? && Terminated(t)
    requires var v := ValueAt(c, i, depth).v; v.Null? || v.False? || v.True? || v.Number?
    requires ValueAt(c, i, depth).v.Number? ==> Follows(c, ValueAt(c, i, depth).at)
    ensures SameFate(value, i, ValueAt(c, i, depth).at)
    ensures var r := ValueAt(c, i, depth);
            Ends(value, i, t) ==> Ends(value, r.at, t) && ValueAt(t, Place(value, i, t), depth) == Ok(r.v, Place(value, r.at, t))
  {
    hide ValueAt, Minified, Ends, Follows, Skip, Text, At, Place;
    var r := ValueAt(c, i, depth);
    var text := Text(r.v, false, 0);
    if r.v.Number? {
      FollowsKept(value, c, r.at, t);
    }
    ScalarText(c, i, depth);
    ScalarBecomes(value, c, i, r.v);
    Advance(value, i, r.at, text, t);
    if Ends(value, i, t) {
      PlaceWithin(value, i, t);
      PlaceWithin(value, r.at, t);
      ScalarMoves(t, Place(value, i, t), r.v, depth);
    }
  }

  lemma ScalarBecomes(value: bytes, c: bytes, i: nat, v: Json)
    requires v.Null? || v.False? || v.True? || v.Number?
    requires c == value + [NUL] && At(c, i, Text(v, false, 0)) && i + |Text(v, false, 0)| <= |value|
    ensures Becomes(value, i, i + |Text(v, false, 0)|, Text(v, false, 0))
  {
    hide Becomes, Text;
    ScalarPlain(v);
    PlainBecomes(value, i, Text(v, false, 0));
  }

  lemma ScalarText(c: bytes, i: nat, depth: nat)
    requires Terminated(c) && i < |c| && ValueAt(c, i, depth).Ok?
    requires var v := ValueAt(c, i, depth).v; v.Null? || v.False? || v.True? || v.Number?
    ensures var r := ValueAt(c, i, depth);
            At(c, i, Text(r.v, false, 0)) && r.at == i + |Text(r.v, false, 0)|
  {
    hide StringAt, ItemsAt, MembersAt, Skip, NumberRun, Strtod;
    var r := ValueAt(c, i, depth);
    if r.v.Number? {
      Slice(c, i, |NumberRun(c, i)|, 0, |r.v.text|);
      NumeralTaken(c, i);
    }
  }

  lemma NumeralTaken(c: bytes, i: nat)
    requires i < |c| && StartsNumber(c[i])
    ensures var run := NumberRun(c, i);
            run == c[i..i + |run|] && (Strtod(run).Some? ==> Strtod(run).value == run[..|Strtod(run).value|])
  {
    hide Strtod;
  }

  lemma ScalarPlain(v: Json)
    requires v.Null? || v.False? || v.True? || v.Number?
    ensures var text := Text(v, false, 0); forall k :: 0 <= k < |text| ==> JsonMinifyText.Plain(text[k])
  {
  }

  lemma ScalarMoves(t: bytes, p: nat, v: Json, depth: nat)
    requires v.Null? || v.False? || v.True? || v.Number?
    requires Terminated(t) && p + |Text(v, false, 0)| < |t| && t[p..p + |Text(v, false, 0)|] == Text(v, false, 0)
    requires v.Number? ==> !NumberChar(t[p + |Text(v, false, 0)|])
    ensures ValueAt(t, p, depth) == Ok(v, p + |Text(v, false, 0)|)
  {
    match v {
      case Null => WordParses(t, p, v, NULL_WORD, depth);
      case False => WordParses(t, p, v, FALSE_WORD, depth);
      case True => WordParses(t, p, v, TRUE_WORD, depth);
      case Number(text) => NumberParses(t, p, text, depth);
    }
  }

  /** A bracket, comma or colon, and the whitespace behind it. */
  lemma MarkStep(value: bytes, c: bytes, k: nat, t: bytes)
    requires c == value + [NUL] && k < |value| && JsonMinifyText.Plain(c[k])
    requires var j := Skip(c, k + 1); j < |value| && value[j] != SLASH
    ensures SameFate(value, k, Skip(c, k + 1))
    ensures var j := Skip(c, k + 1);
            Ends(value, k, t) ==> Ends(value, j, t) && Place(value, k, t) + 1 < |t| && t[Place(value, k, t)] == c[k]
                                  && Skip(t, Place(value, k, t) + 1) == Place(value, j, t) && t[Place(value, j, t)] == c[j]
  {
    hide Minified, Ends, Skip;
    SkipCorresponds(value, c, k + 1, t);
    PlainStep(value, k, t);
    if Ends(value, k, t) {
      PlaceWithin(value, k + 1, t);
    }
  }

  lemma {:induction false} ValueCorresponds(value: bytes, c: bytes, i: nat, depth: nat, t: bytes)
    requires c == value + [NUL] && i <= |value| && ValueAt(c, i, depth).Ok? && Terminated(t)
    requires ValueAt(c, i, depth).v.Number? ==> Follows(c, ValueAt(c, i, depth).at)
    ensures SameFate(value, i, ValueAt(c, i, depth).at)
    ensures var r := ValueAt(c, i, depth);
            Ends(value, i, t) ==> Ends(value, r.at, t) && ValueAt(t, Place(value, i, t), depth) == Ok(r.v, Place(value, r.at, t))
    decreases |c| - i, 2
  {
    hide ValueAt, StringAt, ArrayAt, ObjectAt, Minified, Ends, Follows, Skip;
    var r := ValueAt(c, i, depth);
    ValueKinds(c, i, depth);
    match r.v {
      case String(chars) => StringCorresponds(value, c, i, depth, t);
      case Array(items) => ArrayCorresponds(value, c, i, depth, t);
      case Object(members) => ObjectCorresponds(value, c, i, depth, t);
      case _ => ScalarCorresponds(value, c, i, depth, t);
    }
    if Ends(value, i, t) && (r.v.String? || r.v.Array? || r.v.Object?) {
      PlaceWithin(value, i, t);
      var p := Place(value, i, t);
      HeadByte(value, i, t);
      NestedStarts(t, p, depth);
    }
  }

  lemma ValueKinds(c: bytes, i: nat, depth: nat)
    requires Terminated(c) && i < |c| && ValueAt(c, i, depth).Ok?
    ensures var r := ValueAt(c, i, depth);
            && (r.v.String? ==> c[i] == QUOTE && StringAt(c, i, depth) == Ok(r.v.chars, r.at))
            && (r.v.Array? ==> c[i] == LBRACKET && ArrayAt(c, i, depth) == r)
            && (r.v.Object? ==> c[i] == LBRACE && ObjectAt(c, i, depth) == r)
  {
    hide StringAt, NumberAt, ItemsAt, MembersAt, Skip;
  }

  lemma {:induction false} ArrayCorresponds(value: bytes, c: bytes, i: nat, depth: nat, t: bytes)
    requires c == value + [NUL] && i < |value| && c[i] == LBRACKET && ArrayAt(c, i, depth).Ok? && Terminated(t)
    ensures SameFate(value, i, ArrayAt(c, i, depth).at)
    ensures var r := ArrayAt(c, i, depth);
            Ends(value, i, t) ==> Ends(value, r.at, t) && t[Place(value, i, t)] == LBRACKET
                                  && ArrayAt(t, Place(value, i, t), depth) == Ok(r.v, Place(value, r.at, t))
    decreases |c| - i, 1
  {
    hide ItemsAt, Minified, Ends, Skip;
    var j := Skip(c, i + 1);
    if c[j] == RBRACKET {
      PlainStep(value, j, t);
    } else {
      ItemsCorrespond(value, c, j, depth + 1, t);
    }
    MarkStep(value, c, i, t);
    if Ends(value, i, t) {
      PlaceWithin(value, i, t);
    }
  }

  lemma {:induction false} ItemsCorrespond(value: bytes, c: bytes, j: nat, depth: nat, t: bytes)
    requires c == value + [NUL] && j <= |value| && ItemsAt(c, j, depth).Ok? && Terminated(t)
    ensures SameFate(value, j, ItemsAt(c, j, depth).at) && j < |value| && c[j] != SLASH && c[j] != RBRACKET
    ensures var r := ItemsAt(c, j, depth);
            Ends(value, j, t) ==> Ends(value, r.at, t) && ItemsAt(t, Place(value, j, t), depth) == Ok(r.v, Place(value, r.at, t))
    decreases |c| - j, 3
  {
    hide ValueAt, Minified, Ends, Skip;
    ValueHead(c, j, depth);
    var k := ValueAt(c, j, depth).at;
    var m := Skip(c, k);
    if c[m] == COMMA {
      ItemsCorrespond(value, c, Skip(c, m + 1), depth, t);
      MarkStep(value, c, m, t);
    } else {
      PlainStep(value, m, t);
    }
    FollowsKept(value, c, k, t);
    ValueCorresponds(value, c, j, depth, t);
    if Ends(value, j, t) {
      PlaceWithin(value, j, t);
      PlaceWithin(value, k, t);
      PlaceWithin(value, m, t);
    }
  }

  lemma {:induction false} ObjectCorresponds(value: bytes, c: bytes, i: nat, depth: nat, t: bytes)
    requires c == value + [NUL] && i < |value| && c[i] == LBRACE && ObjectAt(c, i, depth).Ok? && Terminated(t)
    ensures SameFate(value, i, ObjectAt(c, i, depth).at)
    ensures var r := ObjectAt(c, i, depth);
            Ends(value, i, t) ==> Ends(value, r.at, t) && t[Place(value, i, t)] == LBRACE
                                  && ObjectAt(t, Place(value, i, t), depth) == Ok(r.v, Place(value, r.at, t))
    decreases |c| - i, 1
  {
    hide MembersAt, Minified, Ends, Skip;
    var j := Skip(c, i + 1);
    if c[j] == RBRACE {
      PlainStep(value, j, t);
    } else {
      MembersCorrespond(value, c, j, depth + 1, t);
    }
    MarkStep(value, c, i, t);
    if Ends(value, i, t) {
      PlaceWithin(value, i, t);
    }
  }

  lemma {:induction false} MembersCorrespond(value: bytes, c: bytes, j: nat, depth: nat, t: bytes)
    requires c == value + [NUL] && j <= |value| && MembersAt(c, j, depth).Ok? && Terminated(t)
    ensures SameFate(value, j, MembersAt(c, j, depth).at) && j < |value| && c[j] == QUOTE
    ensures var r := MembersAt(c, j, depth);
            Ends(value, j, t) ==> Ends(value, r.at, t) && MembersAt(t, Place(value, j, t), depth) == Ok(r.v, Place(value, r.at, t))
    decreases |c| - j, 4
  {
    hide MemberAt, Minified, Ends, Skip;
    var k := MemberAt(c, j, depth).at;
    var m := Skip(c, k);
    if c[m] == COMMA {
      MembersCorrespond(value, c, Skip(c, m + 1), depth, t);
      MarkStep(value, c, m, t);
    } else {
      PlainStep(value, m, t);
    }
    FollowsKept(value, c, k, t);
    MemberCorresponds(value, c, j, depth, t);
    if Ends(value, j, t) {
      PlaceWithin(value, j, t);
      PlaceWithin(value, k, t);
      PlaceWithin(value, m, t);
    }
  }

  lemma {:induction false} MemberCorresponds(value: bytes, c: bytes, j: nat, depth: nat, t: bytes)
    requires c == value + [NUL] && j <= |value| && MemberAt(c, j, depth).Ok? && Terminated(t)
    requires Follows(c, MemberAt(c, j, depth).at)
    ensures SameFate(value, j, MemberAt(c, j, depth).at) && j < |value| && c[j] == QUOTE
    ensures var r := MemberAt(c, j, depth);
            Ends(value, j, t) ==> Ends(value, r.at, t) && MemberAt(t, Place(value, j, t), depth) == Ok(r.v, Place(value, r.at, t))
    decreases |c| - j, 3
  {
    hide StringAt, ValueAt, Minified, Ends, Skip, Follows;
    var k := StringAt(c, j, depth).at;
    var colon := Skip(c, k);
    var v := Skip(c, colon + 1);
    ValueHead(c, v, depth);
    ValueCorresponds(value, c, v, depth, t);
    MarkStep(value, c, colon, t);
    SkipCorresponds(value, c, k, t);
    StringCorresponds(value, c, j, depth, t);
    if Ends(value, j, t) {
      PlaceWithin(value, j, t);
      PlaceWithin(value, k, t);
      PlaceWithin(value, colon, t);
      PlaceWithin(value, v, t);
    }
  }

  // ---- whole texts ----

  lemma {:induction false} NoTerminator(value: bytes, i: nat)
    requires i <= |value| && NUL !in value && Minified(value, i).Some?
    ensures NUL !in Minified(value, i).value
    decreases |value| - i
  {
    hide CommentEnd, Scan, LineEnd;
    if i < |value| {
      if Space(value[i]) {
        NoTerminator(value, i + 1);
      } else if value[i] == SLASH && i + 1 < |value| && value[i + 1] == SLASH {
        NoTerminator(value, if LineEnd(value, i) > i then LineEnd(value, i) else i + 1);
      } else if value[i] == SLASH && i + 1 < |value| && value[i + 1] == STAR {
        NoTerminator(value, CommentEnd(value, i).value);
      } else if value[i] == QUOTE {
        NoTerminator(value, Scan(value, i + 1).value + 1);
      } else {
        NoTerminator(value, i + 1);
      }
    }
  }

  /** Reading a byte order mark and whitespace up to the value leads to the same place. */
  lemma StartCorresponds(value: CString, c: bytes, t: bytes)
    requires c == value + [NUL] && Terminated(t)
    requires var j := Skip(c, AfterBom(c)); j < |value| && 32 < c[j] < 128 && c[j] != SLASH
    ensures SameFate(value, 0, Skip(c, AfterBom(c)))
    ensures var j := Skip(c, AfterBom(c));
            Minified(value, 0).Some? && t == Minified(value, 0).value + [NUL] ==> Ends(value, j, t) && Skip(t, AfterBom(t)) == Place(value, j, t)
  {
    hide Minified, Skip;
    var k := AfterBom(c);
    var j := Skip(c, k);
    SkipCorresponds(value, c, k, t);
    if k > 0 {
      assert At(value, 0, BOM);
      PlainBecomes(value, 0, BOM);
      Advance(value, 0, 3, BOM, t);
    }
    if Minified(value, 0).Some? && t == Minified(value, 0).value + [NUL] {
      assert t[0..] == t;
      assert Ends(value, 0, t);
      PlaceWithin(value, j, t);
      SkipHead(t, 0);
      if k == 0 && At(t, 0, BOM) {
        AtByte(t, 0, BOM, 0);
      }
    }
  }

  /** Every text the parser accepts to its end keeps its tree when it is minified: the minified text is
      accepted too and parses to the same tree, and the scan never runs over the end of the text. */
  lemma MinifyKeepsTheTree(value: CString)
    requires Parse(value, true).item.Some?
    ensures var m := Minified(value, 0);
            m.Some? && NUL !in m.value && Parse(m.value, true).item == Parse(value, true).item
  {
    hide ValueAt, Minified, Skip, AfterBom;
    var c: bytes := value + [NUL];
    var j := Skip(c, AfterBom(c));
    var k := ValueAt(c, j, 0).at;
    EndByte(value, c);
    ValueHead(c, j, 0);
    FollowsKept(value, c, k, c);
    ValueCorresponds(value, c, j, 0, c);
    StartCorresponds(value, c, c);
    NoTerminator(value, 0);
    var t := Minified(value, 0).value + [NUL];
    ValueCorresponds(value, c, j, 0, t);
    StartCorresponds(value, c, t);
    FollowsKept(value, c, k, t);
  }

  /** strtod takes no more than text off text and what stands behind it. */
  predicate TakesNoMore(text: CString, behind: bytes) {
    var all := text + behind;
    StrtodEnd(all[..Span(all, 0, NUMBER_READ_MAX)]) == |text|
  }

  lemma {:induction false} SpanBefore(t: bytes, p: nat, s: bytes, i: nat, n: nat)
    requires p + i <= |t| && i <= |s| && t[p + i..] == s[i..] + [NUL]
    ensures Span(t, p + i, n) == Span(s, i, n)
    decreases n
  {
    assert t[p + i] == t[p + i..][0];
    if n > 0 && i < |s| && NumberChar(s[i]) {
      assert t[p + (i + 1)..] == t[p + i..][1..] && s[i + 1..] == s[i..][1..];
      SpanBefore(t, p, s, i + 1, n - 1);
    }
  }

  /** The number characters at p are those of what stands there. */
  lemma RunBehind(t: bytes, p: nat, all: bytes)
    requires p < |t| && t[p..] == all + [NUL]
    ensures NumberRun(t, p) == all[..Span(all, 0, NUMBER_READ_MAX)]
  {
    assert t[p + 0..] == all[0..] + [NUL];
    SpanBefore(t, p, all, 0, NUMBER_READ_MAX);
    var n := Span(all, 0, NUMBER_READ_MAX);
    assert t[p..p + n] == t[p..][..n];
  }

  /** A number is read again from what minifying leaves exactly if strtod takes no more. */
  lemma NumberKept(t: bytes, p: nat, text: Numeral, behind: bytes)
    requires Terminated(t) && p < |t| && t[p..] == text + behind + [NUL]
    ensures ValueAt(t, p, 0).Ok? && ValueAt(t, p, 0).v == Number(text) <==> TakesNoMore(text, behind)
  {
    assert t[p] == t[p..][0] == text[0];
    RunBehind(t, p, text + behind);
    RunText(NumberRun(t, p), text, behind);
    NumberFirst(t, p);
    hide NumberRun, Strtod, StrtodEnd, Span, ValueAt;
  }

  lemma NumberFirst(t: bytes, p: nat)
    requires Terminated(t) && p < |t| && StartsNumber(t[p])
    ensures ValueAt(t, p, 0).Ok? <==> Strtod(NumberRun(t, p)).Some?
    ensures ValueAt(t, p, 0).Ok? ==> ValueAt(t, p, 0).v == Number(Strtod(NumberRun(t, p)).value)
  {
    hide NumberRun, Strtod, ArrayAt, ObjectAt, StringAt;
    NoWord(t, p);
  }

  lemma RunText(run: bytes, text: Numeral, behind: bytes)
    requires |run| <= NUMBER_READ_MAX && |run| <= |text + behind| && run == (text + behind)[..|run|] && (run != [] ==> StartsNumber(run[0]))
    requires forall k :: 0 <= k < |run| ==> NumberChar(run[k])
    ensures Strtod(run) == Some(text) <==> StrtodEnd(run) == |text|
  {
    hide StrtodEnd;
    if StrtodEnd(run) == |text| {
      assert run[..|text|] == text;
    }
  }

  /** Without the end check: wherever minifying is defined, the tree is kept exactly if the value is no number or
      strtod takes no more off what minifying puts behind it. */
  lemma MinifyWithoutEndCheck(value: CString)
    requires Parse(value, false).item.Some? && Minified(value, 0).Some?
    ensures var whole, m := Parse(value, false), Minified(value, 0).value;
            && NUL !in m && whole.end <= |value| && Minified(value, whole.end).Some?
            && var v := whole.item.value;
               (Parse(m, false).item == Some(v) <==> (v.Number? ==> TakesNoMore(v.text, Minified(value, whole.end).value)))
  {
    hide Minified, TakesNoMore, Parse, Reread;
    NoTerminator(value, 0);
    var m: CString := Minified(value, 0).value;
    ParseWithoutEnd(value);
    ParseWithoutEnd(m);
    if Reread(value + [NUL]).v.Number? {
      NumberReread(value, value + [NUL], m + [NUL]);
    } else {
      OtherReread(value, value + [NUL], m + [NUL]);
    }
  }

  lemma ParseWithoutEnd(value: CString)
    ensures var r := Reread(value + [NUL]);
            && Parse(value, false).item == (if r.Ok? then Some(r.v) else None)
            && (r.Ok? ==> Parse(value, false).end == r.at)
  {
    hide ValueAt, Skip, AfterBom;
  }

  /** What the parser finds first in the minified text. */
  function Reread(t: bytes): Parsed<Json>
    requires Terminated(t)
  {
    ValueAt(t, Skip(t, AfterBom(t)), 0)
  }

  lemma NumberReread(value: CString, c: bytes, t: bytes)
    requires c == value + [NUL] && Reread(c).Ok? && Reread(c).v.Number?
    requires Minified(value, 0).Some? && t == Minified(value, 0).value + [NUL]
    ensures Minified(value, Reread(c).at).Some?
    ensures Reread(t).Ok? && Reread(t).v == Reread(c).v <==> TakesNoMore(Reread(c).v.text, Minified(value, Reread(c).at).value)
  {
    hide ValueAt, Minified, Skip, AfterBom, TakesNoMore, Text, Becomes, Ends, Place;
    var j := Skip(c, AfterBom(c));
    var r := Reread(c);
    ValueHead(c, j, 0);
    StartCorresponds(value, c, t);
    PlaceWithin(value, j, t);
    ScalarText(c, j, 0);
    ScalarBecomes(value, c, j, r.v);
    NumberText(r.v);
    NumberEnds(value, j, r.at, r.v.text, t);
    NumberKept(t, Place(value, j, t), r.v.text, Minified(value, r.at).value);
  }

  lemma NumberText(v: Json)
    requires v.Number?
    ensures Text(v, false, 0) == v.text
  {
  }

  lemma OtherReread(value: CString, c: bytes, t: bytes)
    requires c == value + [NUL] && Reread(c).Ok? && !Reread(c).v.Number?
    requires Minified(value, 0).Some? && t == Minified(value, 0).value + [NUL]
    ensures Minified(value, Reread(c).at).Some? && Reread(t).Ok? && Reread(t).v == Reread(c).v
  {
    hide ValueAt, Minified, Skip, AfterBom;
    var j := Skip(c, AfterBom(c));
    ValueHead(c, j, 0);
    StartCorresponds(value, c, t);
    ValueCorresponds(value, c, j, 0, t);
  }

  lemma NumberEnds(value: bytes, i: nat, at: nat, text: bytes, t: bytes)
    requires Ends(value, i, t) && i <= at <= |value| && Becomes(value, i, at, text)
    ensures Minified(value, at).Some? && t[Place(value, i, t)..] == text + Minified(value, at).value + [NUL]
  {
    hide Minified;
  }

  /** Without the check that the text ends behind its value this fails: minifying joins what whitespace
      kept apart, here a number and the digit behind it. */
  lemma MinifyJoinsTokens()
    ensures var text: CString, joined: CString := [49, 32, 50], [49, 50];
            && Minified(text, 0) == Some(joined)
            && Parse(text, false).item == Some(Number([49])) && Parse(text, true).item == None
            && Parse(joined, false).item == Some(Number([49, 50]))
  {
    var text: CString, joined: CString := [49, 32, 50], [49, 50];
    var one, twelve: Numeral := [49], [49, 50];
    var c: bytes, t: bytes := text + [NUL], joined + [NUL];
    hide ValueAt, Minified;
    JoinedText(text, joined);
    SkipOne(c, 1);
    NumberParses(c, 0, one, 0);
    NumberParses(t, 0, twelve, 0);
  }

  lemma JoinedText(text: CString, joined: CString)
    requires text == [49, 32, 50] && joined == [49, 50]
    ensures Minified(text, 0) == Some(joined)
  {
    PlainBecomes(text, 0, [49]);
    SpaceBecomes(text, 1, [32]);
    PlainBecomes(text, 2, [50]);
    Join3(text, 0, 1, 2, 3, [49], [], [50]);
    assert [49] + [] + [50] + [] == joined;
  }
}
