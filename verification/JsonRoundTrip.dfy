/** What the printer prints, the parser reads back: the law cJSON_Print and cJSON_Parse keep together. */
module JsonRoundTrip {
  import opened Bytes
  import opened JsonText
  import opened JsonString
  import opened JsonParser

  // ---- stepping over whitespace ----

  predicate Blank(s: bytes, i: nat, k: nat) {
    k <= |s| && forall m :: i <= m < k ==> s[m] <= 32
  }

  lemma {:induction false} SkipTo(s: bytes, i: nat, k: nat)
    requires i <= k < |s| && Blank(s, i, k) && s[k] > 32
    ensures Skip(s, i) == k
    decreases k - i
  {
    if i < k {
      SkipTo(s, i + 1, k);
    }
  }

  lemma SkipNone(s: bytes, i: nat)
    requires i < |s| && s[i] > 32
    ensures Skip(s, i) == i
  {
  }

  lemma SkipEnds(s: bytes, i: nat)
    requires i + 1 == |s|
    ensures Skip(s, i) == i
  {
  }

  lemma SkipOne(s: bytes, i: nat)
    requires i + 1 < |s| && s[i] <= 32 && s[i + 1] > 32
    ensures Skip(s, i) == i + 1
  {
  }

  lemma BlankText(s: bytes, i: nat, text: CString)
    requires At(s, i, text) && forall k :: 0 <= k < |text| ==> text[k] <= 32
    ensures Blank(s, i, i + |text|)
  {
    forall m | i <= m < i + |text| ensures s[m] <= 32 {
      AtByte(s, i, text, m - i);
    }
  }

  /** Every value's text starts with a byte that tells its kind and is no whitespace. */
  lemma FirstByte(v: Json, fmt: bool, depth: nat)
    ensures var t := Text(v, fmt, depth);
            && t != [] && t[0] > 32 && t[0] != RBRACKET && t[0] != RBRACE
  {
  }

  /** No word of another kind is found where a text starts with a different byte. */
  lemma NoWord(s: bytes, i: nat)
    requires Terminated(s) && i < |s| && s[i] != 110 && s[i] != 102 && s[i] != 116
    ensures !WordAt(s, i, NULL_WORD) && !WordAt(s, i, FALSE_WORD) && !WordAt(s, i, TRUE_WORD)
  {
    if At(s, i, NULL_WORD) { AtByte(s, i, NULL_WORD, 0); }
    if At(s, i, FALSE_WORD) { AtByte(s, i, FALSE_WORD, 0); }
    if At(s, i, TRUE_WORD) { AtByte(s, i, TRUE_WORD, 0); }
  }

  // ---- scalars ----

  lemma {:induction false} SpanExact(s: bytes, i: nat, text: CString, n: nat)
    requires At(s, i, text) && i + |text| < |s| && |text| <= n
    requires (forall k :: 0 <= k < |text| ==> NumberChar(text[k])) && !NumberChar(s[i + |text|])
    ensures Span(s, i, n) == |text|
    decreases |text|
  {
    if text != [] {
      AtByte(s, i, text, 0);
      assert text == [text[0]] + text[1..];
      AtSplit(s, i, [text[0]], text[1..]);
      SpanExact(s, i + 1, text[1..], n - 1);
    }
  }

  lemma NumberParses(s: bytes, i: nat, text: Numeral, depth: nat)
    requires Terminated(s) && At(s, i, text) && i + |text| < |s| && !NumberChar(s[i + |text|])
    ensures ValueAt(s, i, depth) == Ok(Number(text), i + |text|)
  {
    SpanExact(s, i, text, NUMBER_READ_MAX);
    AtByte(s, i, text, 0);
    NoWord(s, i);
    assert NumberRun(s, i) == text;
    assert text[..|text|] == text;
    assert Strtod(text) == Some(text);
  }

  lemma StringParses(s: bytes, i: nat, chars: CString, depth: nat)
    requires Terminated(s) && At(s, i, Quoted(chars)) && i + |Quoted(chars)| < |s|
    ensures s[i] == QUOTE && StringAt(s, i, depth) == Ok(chars, i + |Quoted(chars)|)
  {
    hide At, Scan, Unescape, Escape;
    AtByte(s, i, Quoted(chars), 0);
    QuotedParses(s, i, chars);
    CStrOfString(chars);
  }

  lemma WordParses(s: bytes, i: nat, v: Json, word: CString, depth: nat)
    requires v.Null? || v.False? || v.True?
    requires word == Text(v, false, 0)
    requires Terminated(s) && At(s, i, word) && i + |word| < |s|
    ensures ValueAt(s, i, depth) == Ok(v, i + |word|)
  {
    AtByte(s, i, word, 0);
    if At(s, i, NULL_WORD) { AtByte(s, i, NULL_WORD, 0); }
    if At(s, i, FALSE_WORD) { AtByte(s, i, FALSE_WORD, 0); }
  }

  // ---- nested values ----

  /** v is read and reading goes on at `at`, or it is refused because it is nested too deep. */
  predicate Reads<T(==)>(r: Parsed<T>, v: T, at: nat, fits: bool) {
    if fits then r == Ok(v, at) else r.Fail?
  }

  /** The first byte tells which kind of value is read. */
  lemma NestedStarts(s: bytes, i: nat, depth: nat)
    requires Terminated(s) && i < |s|
    ensures s[i] == QUOTE && StringAt(s, i, depth).Ok?
            ==> ValueAt(s, i, depth) == Ok(String(StringAt(s, i, depth).v), StringAt(s, i, depth).at)
    ensures s[i] == LBRACKET ==> ValueAt(s, i, depth) == ArrayAt(s, i, depth)
    ensures s[i] == LBRACE ==> ValueAt(s, i, depth) == ObjectAt(s, i, depth)
  {
    hide StringAt, NumberAt, ArrayAt, ObjectAt;
    if s[i] == QUOTE || s[i] == LBRACKET || s[i] == LBRACE {
      NoWord(s, i);
    }
  }

  /** What the text of a value is made of, and that scalars are not nested. */
  lemma TextParts(v: Json, fmt: bool, level: nat)
    ensures v.String? ==> Text(v, fmt, level) == Quoted(v.chars)
    ensures v.Number? ==> Text(v, fmt, level) == v.text
    ensures v.Null? || v.False? || v.True? ==> Text(v, fmt, level) == Text(v, false, 0)
    ensures v.Array? ==> Text(v, fmt, level) == [LBRACKET] + (ItemsText(v.items, fmt, level + 1) + [RBRACKET])
    ensures v.Object? ==> Text(v, fmt, level) == Open(fmt) + (MembersText(v.members, fmt, level + 1) + Close(fmt, level))
    ensures !v.Array? && !v.Object? ==> Nesting(v) == 0
    ensures v.Array? ==> Nesting(v) == 1 + ItemsNesting(v.items)
    ensures v.Object? ==> Nesting(v) == 1 + MembersNesting(v.members)
  {
    hide ItemsText, MembersText, Quoted, ItemsNesting, MembersNesting;
  }

  /** Printed text, wherever it stands and in either format, parses back to the value it was printed
      from, unless it is nested deeper than the limit; then it is refused. */
  lemma {:induction false} ValueParses(v: Json, fmt: bool, level: nat, s: bytes, i: nat, depth: nat)
    requires Terminated(s) && depth <= NESTING_LIMIT
    requires At(s, i, Text(v, fmt, level)) && i + |Text(v, fmt, level)| < |s| && !NumberChar(s[i + |Text(v, fmt, level)|])
    ensures Reads(ValueAt(s, i, depth), v, i + |Text(v, fmt, level)|, depth + Nesting(v) <= NESTING_LIMIT)
    decreases v, 0
  {
    hide At, ValueAt, ArrayAt, ObjectAt, StringAt, NumberAt, Skip, Text, Nesting, Quoted, Open, NumberChar;
    TextParts(v, fmt, level);
    match v {
      case Number(text) => NumberParses(s, i, text, depth);
      case String(chars) =>
        StringParses(s, i, chars, depth);
        NestedStarts(s, i, depth);
      case Array(items) => ArrayParses(items, fmt, level, s, i, depth);
      case Object(members) => ObjectParses(members, fmt, level, s, i, depth);
      case _ => WordParses(s, i, v, Text(v, false, 0), depth);
    }
  }

  lemma {:induction false} ArrayParses(items: seq<Json>, fmt: bool, level: nat, s: bytes, i: nat, depth: nat)
    requires Terminated(s) && depth <= NESTING_LIMIT
    requires At(s, i, Text(Array(items), fmt, level)) && i + |Text(Array(items), fmt, level)| < |s|
    ensures Reads(ValueAt(s, i, depth), Array(items), i + |Text(Array(items), fmt, level)|,
                  depth + Nesting(Array(items)) <= NESTING_LIMIT)
    decreases items, 2
  {
    hide At, ValueAt, ArrayAt, ItemsAt, Text, Skip, ItemsText, Nesting, ItemsNesting;
    var inner := ItemsText(items, fmt, level + 1);
    TextParts(Array(items), fmt, level);
    AtSplit(s, i, [LBRACKET], inner + [RBRACKET]);
    AtSplit(s, i + 1, inner, [RBRACKET]);
    AtByte(s, i, [LBRACKET], 0);
    AtByte(s, i + 1 + |inner|, [RBRACKET], 0);
    NestedStarts(s, i, depth);
    if items == [] {
      NoItems(fmt, level + 1);
      SkipNone(s, i + 1);
      EmptyArray(s, i, depth);
    } else {
      ItemsFirst(items, fmt, level + 1);
      AtByte(s, i + 1, inner, 0);
      SkipNone(s, i + 1);
      if depth < NESTING_LIMIT {
        ItemsParse(items, fmt, level + 1, s, i + 1, depth + 1);
      }
      ArrayTakes(s, i, depth);
    }
  }

  lemma NoItems(fmt: bool, level: nat)
    ensures ItemsText([], fmt, level) == [] && ItemsNesting([]) == 0
  {
  }

  lemma EmptyArray(s: bytes, i: nat, depth: nat)
    requires Terminated(s) && i + 1 < |s| && s[i] == LBRACKET && Skip(s, i + 1) == i + 1 && s[i + 1] == RBRACKET
    ensures if depth >= NESTING_LIMIT then ArrayAt(s, i, depth).Fail? else ArrayAt(s, i, depth) == Ok(Array([]), i + 2)
  {
    hide Skip, ItemsAt;
  }

  lemma ArrayTakes(s: bytes, i: nat, depth: nat)
    requires Terminated(s) && i + 1 < |s| && s[i] == LBRACKET && Skip(s, i + 1) == i + 1 && s[i + 1] != RBRACKET
    ensures if depth >= NESTING_LIMIT then ArrayAt(s, i, depth).Fail?
            else match ItemsAt(s, i + 1, depth + 1)
                 case Ok(items, at) => ArrayAt(s, i, depth) == Ok(Array(items), at)
                 case Fail(_, _) => ArrayAt(s, i, depth).Fail?
  {
    hide Skip, ItemsAt;
  }

  /** Where the parts of an array's inner text lie, and what the parser skips between them. */
  lemma ItemsLayout(s: bytes, j: nat, text: CString, gap: CString, rest: CString)
    requires At(s, j, text + gap + rest)
    requires 1 <= |gap| <= 2 && gap[0] == COMMA && (|gap| == 2 ==> gap[1] == SPACE)
    requires rest != [] && rest[0] > 32
    ensures var k, next := j + |text|, j + |text| + |gap|;
            && At(s, j, text) && At(s, next, rest)
            && k < next < |s| && s[k] == COMMA && Skip(s, k) == k && Skip(s, k + 1) == next
  {
    hide Skip;
    AtSplit3(s, j, text, gap, rest);
    var k := j + |text|;
    AtByte(s, k, gap, 0);
    AtByte(s, k + |gap|, rest, 0);
    SkipNone(s, k);
    if |gap| == 2 {
      AtByte(s, k, gap, 1);
      SkipOne(s, k + 1);
    } else {
      SkipNone(s, k + 1);
    }
  }

  lemma ItemsCons(items: seq<Json>, fmt: bool, level: nat)
    requires items != []
    ensures ItemsText(items, fmt, level)
            == if |items| > 1 then Text(items[0], fmt, level) + ItemGap(fmt, true) + ItemsText(items[1..], fmt, level)
               else Text(items[0], fmt, level)
  {
  }

  lemma ItemsFirst(items: seq<Json>, fmt: bool, depth: nat)
    requires items != []
    ensures var t := ItemsText(items, fmt, depth); t != [] && t[0] > 32 && t[0] != RBRACKET
  {
    hide Text;
    FirstByte(items[0], fmt, depth);
    ItemsCons(items, fmt, depth);
  }

  lemma ItemsNestingCons(items: seq<Json>)
    requires items != []
    ensures var first, rest := Nesting(items[0]), ItemsNesting(items[1..]);
            ItemsNesting(items) == if first < rest then rest else first
    ensures |items| == 1 ==> ItemsNesting(items) == Nesting(items[0])
  {
    hide Nesting;
  }

  lemma {:induction false} ItemsParse(items: seq<Json>, fmt: bool, level: nat, s: bytes, j: nat, depth: nat)
    requires items != [] && Terminated(s) && depth <= NESTING_LIMIT
    requires At(s, j, ItemsText(items, fmt, level)) && j + |ItemsText(items, fmt, level)| < |s| - 1
    requires s[j + |ItemsText(items, fmt, level)|] == RBRACKET
    ensures Reads(ItemsAt(s, j, depth), items, j + |ItemsText(items, fmt, level)| + 1, depth + ItemsNesting(items) <= NESTING_LIMIT)
    decreases items, 1
  {
    hide At, ValueAt, ItemsAt, Text, ItemsText, Skip, Nesting, ItemsNesting, ItemGap;
    var v, tail := items[0], items[1..];
    var k := j + |Text(v, fmt, level)|;
    ItemsCons(items, fmt, level);
    ItemsNestingCons(items);
    if |items| > 1 {
      ItemsFirst(tail, fmt, level);
      GapOfItems(fmt);
      ItemsLayout(s, j, Text(v, fmt, level), ItemGap(fmt, true), ItemsText(tail, fmt, level));
      ValueParses(v, fmt, level, s, j, depth);
      ItemsParse(tail, fmt, level, s, k + |ItemGap(fmt, true)|, depth);
      FirstByte(v, fmt, level);
      ItemsTake(s, j, depth, v, k, items);
    } else {
      ValueParses(v, fmt, level, s, j, depth);
      FirstByte(v, fmt, level);
      LastItem(s, j, depth, v, k, items);
    }
  }

  lemma GapOfItems(fmt: bool)
    ensures var gap := ItemGap(fmt, true); 1 <= |gap| <= 2 && gap[0] == COMMA && (|gap| == 2 ==> gap[1] == SPACE)
  {
  }

  lemma LastItem(s: bytes, j: nat, depth: nat, v: Json, k: nat, items: seq<Json>)
    requires Terminated(s) && j < k < |s| && items == [v] && s[k] == RBRACKET
    requires ValueAt(s, j, depth) == Ok(v, k) || ValueAt(s, j, depth).Fail?
    ensures if ValueAt(s, j, depth).Ok? then ItemsAt(s, j, depth) == Ok(items, k + 1) else ItemsAt(s, j, depth).Fail?
  {
    hide ValueAt;
    SkipNone(s, k);
    assert [v] + [] == [v];
  }

  /** One element and the list behind its comma make up the list. */
  lemma ItemsTake(s: bytes, j: nat, depth: nat, v: Json, k: nat, items: seq<Json>)
    requires Terminated(s) && j < k < |s| && |items| > 1 && v == items[0]
    requires ValueAt(s, j, depth) == Ok(v, k) || ValueAt(s, j, depth).Fail?
    requires s[k] == COMMA && Skip(s, k) == k
    ensures var rest := ItemsAt(s, Skip(s, k + 1), depth);
            && (ValueAt(s, j, depth).Fail? || rest.Fail? ==> ItemsAt(s, j, depth).Fail?)
            && (ValueAt(s, j, depth).Ok? && rest.Ok? && rest.v == items[1..] ==> ItemsAt(s, j, depth) == Ok(items, rest.at))
  {
    hide ValueAt, Skip;
    assert [v] + items[1..] == items;
  }

  lemma {:induction false} ObjectParses(members: seq<Member>, fmt: bool, level: nat, s: bytes, i: nat, depth: nat)
    requires Terminated(s) && depth <= NESTING_LIMIT
    requires At(s, i, Text(Object(members), fmt, level)) && i + |Text(Object(members), fmt, level)| < |s|
    ensures Reads(ValueAt(s, i, depth), Object(members), i + |Text(Object(members), fmt, level)|,
                  depth + Nesting(Object(members)) <= NESTING_LIMIT)
    decreases members, 2
  {
    hide At, ValueAt, MembersAt, Text, MembersText, Skip, Close, Blank, Indent, Open, ObjectAt, Nesting, MembersNesting;
    var open, body, close := Open(fmt), MembersText(members, fmt, level + 1), Close(fmt, level);
    TextParts(Object(members), fmt, level);
    AtSplit(s, i, open, body + close);
    AtSplit(s, i + |open|, body, close);
    OpenFollows(s, i, fmt);
    NestedStarts(s, i, depth);
    if members == [] {
      NoMembers(fmt, level + 1);
      EmptyObject(s, i, fmt, level, depth);
    } else {
      MembersBegin(members, fmt, level, s, i, depth);
      if depth < NESTING_LIMIT {
        MembersParse(members, fmt, level + 1, s, i + |open|, depth + 1);
      }
    }
  }

  /** An object without members: from its brace on only whitespace up to the closing one. */
  lemma EmptyObject(s: bytes, i: nat, fmt: bool, level: nat, depth: nat)
    requires Terminated(s) && At(s, i, Open(fmt)) && At(s, i + |Open(fmt)|, Close(fmt, level))
    ensures i < |s| && s[i] == LBRACE
    ensures Reads(ObjectAt(s, i, depth), Object([]), i + |Open(fmt)| + |Close(fmt, level)|, depth < NESTING_LIMIT)
  {
    hide At, Skip, Close, Blank, Open, ObjectAt;
    OpenFollows(s, i, fmt);
    CloseFollows(s, i + |Open(fmt)|, fmt, level);
    var e := i + |Open(fmt)| + |Close(fmt, level)| - 1;
    BlankJoin(s, i + 1, i + |Open(fmt)|, e);
    SkipTo(s, i + 1, e);
    ObjectCloses(s, i, depth, e);
  }

  /** An object with members: what its brace and the whitespace behind it lead to. */
  lemma MembersBegin(members: seq<Member>, fmt: bool, level: nat, s: bytes, i: nat, depth: nat)
    requires members != [] && Terminated(s) && At(s, i, Open(fmt)) && At(s, i + |Open(fmt)|, MembersText(members, fmt, level + 1))
    ensures i < |s| && s[i] == LBRACE
    ensures var j := i + |Open(fmt)| + |Indent(fmt, level + 1)|;
            && j < |s|
            && if depth >= NESTING_LIMIT then ObjectAt(s, i, depth).Fail?
               else match MembersAt(s, j, depth + 1)
                    case Ok(members, at) => ObjectAt(s, i, depth) == Ok(Object(members), at)
                    case Fail(_, _) => ObjectAt(s, i, depth).Fail?
  {
    hide At, Skip, Blank, Open, ObjectAt, MembersAt, MembersText, Indent, MemberText, MemberGap;
    OpenFollows(s, i, fmt);
    MemberStarts(members, fmt, level + 1, s, i + |Open(fmt)|);
    var j := i + |Open(fmt)| + |Indent(fmt, level + 1)|;
    BlankJoin(s, i + 1, i + |Open(fmt)|, j);
    SkipTo(s, i + 1, j);
    ObjectTakes(s, i, depth, j);
  }

  lemma ObjectCloses(s: bytes, i: nat, depth: nat, e: nat)
    requires Terminated(s) && i < |s| && s[i] == LBRACE && Skip(s, i + 1) == e < |s| && s[e] == RBRACE
    ensures if depth >= NESTING_LIMIT then ObjectAt(s, i, depth).Fail? else ObjectAt(s, i, depth) == Ok(Object([]), e + 1)
  {
    hide Skip, MembersAt;
  }

  lemma ObjectTakes(s: bytes, i: nat, depth: nat, j: nat)
    requires Terminated(s) && i < |s| && s[i] == LBRACE && Skip(s, i + 1) == j < |s| && s[j] == QUOTE
    ensures if depth >= NESTING_LIMIT then ObjectAt(s, i, depth).Fail?
            else match MembersAt(s, j, depth + 1)
                 case Ok(members, at) => ObjectAt(s, i, depth) == Ok(Object(members), at)
                 case Fail(_, _) => ObjectAt(s, i, depth).Fail?
  {
    hide Skip, MembersAt;
  }

  lemma OpenFollows(s: bytes, i: nat, fmt: bool)
    requires At(s, i, Open(fmt))
    ensures |Open(fmt)| > 0 && i < |s| && s[i] == LBRACE && Blank(s, i + 1, i + |Open(fmt)|)
  {
    AtByte(s, i, Open(fmt), 0);
    if fmt { AtByte(s, i, Open(fmt), 1); }
  }

  lemma GapFollows(s: bytes, k: nat, fmt: bool, more: bool)
    requires At(s, k, MemberGap(fmt, more))
    ensures more ==> MemberGap(fmt, more) != [] && s[k] == COMMA && Blank(s, k + 1, k + |MemberGap(fmt, more)|)
    ensures !more ==> Blank(s, k, k + |MemberGap(fmt, more)|)
  {
    if more || fmt { AtByte(s, k, MemberGap(fmt, more), 0); }
    if more && fmt { AtByte(s, k, MemberGap(fmt, more), 1); }
  }

  lemma NoMembers(fmt: bool, level: nat)
    ensures MembersText([], fmt, level) == [] && MembersNesting([]) == 0
  {
  }

  lemma BlankJoin(s: bytes, a: nat, b: nat, c: nat)
    requires a <= b <= c && Blank(s, a, b) && Blank(s, b, c)
    ensures Blank(s, a, c)
  {
  }

  /** The closing line of an object is whitespace up to its brace. */
  lemma CloseFollows(s: bytes, p: nat, fmt: bool, level: nat)
    requires At(s, p, Close(fmt, level))
    ensures Close(fmt, level) != [] && p + |Close(fmt, level)| <= |s| && Blank(s, p, p + |Close(fmt, level)| - 1) && s[p + |Close(fmt, level)| - 1] == RBRACE
  {
    AtSplit(s, p, Indent(fmt, level), [RBRACE]);
    BlankText(s, p, Indent(fmt, level));
    AtByte(s, p + |Indent(fmt, level)|, [RBRACE], 0);
  }

  /** The members' text starts with indentation and a quote. */
  lemma MemberStarts(members: seq<Member>, fmt: bool, level: nat, s: bytes, p: nat)
    requires members != [] && At(s, p, MembersText(members, fmt, level))
    ensures var j := p + |Indent(fmt, level)|; Blank(s, p, j) && j < |s| && s[j] == QUOTE
    ensures At(s, p, MemberText(members[0], fmt, level))
    ensures At(s, p + |MemberText(members[0], fmt, level)|, MemberGap(fmt, |members| > 1))
    ensures At(s, p + |MemberText(members[0], fmt, level)| + |MemberGap(fmt, |members| > 1)|,
               MembersText(members[1..], fmt, level))
  {
    hide MemberText, Text, MembersText, At, Blank, Colon, MemberGap, Escape;
    var m, gap, rest := MemberText(members[0], fmt, level), MemberGap(fmt, |members| > 1), MembersText(members[1..], fmt, level);
    MembersCons(members, fmt, level);
    AtSplit3(s, p, m, gap, rest);
    MemberSplit(members[0], fmt, level, s, p);
    BlankText(s, p, Indent(fmt, level));
    AtByte(s, p + |Indent(fmt, level)|, Quoted(members[0].key), 0);
  }

  lemma MembersCons(members: seq<Member>, fmt: bool, level: nat)
    requires members != []
    ensures MembersText(members, fmt, level)
            == MemberText(members[0], fmt, level) + MemberGap(fmt, |members| > 1) + MembersText(members[1..], fmt, level)
  {
  }

  lemma MemberSplit(m: Member, fmt: bool, level: nat, s: bytes, p: nat)
    requires At(s, p, MemberText(m, fmt, level))
    ensures At(s, p, Indent(fmt, level))
    ensures var j := p + |Indent(fmt, level)|;
            && At(s, j, Quoted(m.key))
            && At(s, j + |Quoted(m.key)|, Colon(fmt))
            && At(s, j + |Quoted(m.key)| + |Colon(fmt)|, Text(m.value, fmt, level))
    ensures |MemberText(m, fmt, level)|
            == |Indent(fmt, level)| + |Quoted(m.key)| + |Colon(fmt)| + |Text(m.value, fmt, level)|
  {
    hide Text, Quoted;
    var a, b, c, d := Indent(fmt, level), Quoted(m.key), Colon(fmt), Text(m.value, fmt, level);
    AtSplit(s, p, a + b + c, d);
    AtSplit(s, p, a + b, c);
    AtSplit(s, p, a, b);
  }

  lemma {:induction false} MemberParses(m: Member, fmt: bool, level: nat, s: bytes, p: nat, depth: nat)
    requires Terminated(s) && depth <= NESTING_LIMIT
    requires At(s, p, MemberText(m, fmt, level)) && p + |MemberText(m, fmt, level)| < |s|
    requires !NumberChar(s[p + |MemberText(m, fmt, level)|])
    ensures p + |Indent(fmt, level)| < |s|
    ensures Reads(MemberAt(s, p + |Indent(fmt, level)|, depth), m, p + |MemberText(m, fmt, level)|,
                  depth + Nesting(m.value) <= NESTING_LIMIT)
    decreases m, 0
  {
    hide At, MemberAt, ValueAt, StringAt, Text, MemberText, Quoted, Skip, Nesting, Colon, Indent, NumberChar;
    MemberSplit(m, fmt, level, s, p);
    var j := p + |Indent(fmt, level)|;
    var c := j + |Quoted(m.key)|;
    var k := c + |Colon(fmt)|;
    ColonFollows(s, c, fmt);
    StringParses(s, j, m.key, depth);
    FirstByte(m.value, fmt, level);
    AtByte(s, k, Text(m.value, fmt, level), 0);
    SkipTo(s, c + 1, k);
    ValueParses(m.value, fmt, level, s, k, depth);
    MemberTakes(s, j, depth, m.key, c, k);
  }

  lemma ColonFollows(s: bytes, c: nat, fmt: bool)
    requires At(s, c, Colon(fmt))
    ensures c < |s| && s[c] == COLON && |Colon(fmt)| > 0 && Blank(s, c + 1, c + |Colon(fmt)|) && Skip(s, c) == c
  {
    AtByte(s, c, Colon(fmt), 0);
    if fmt {
      AtByte(s, c, Colon(fmt), 1);
    }
  }

  lemma MemberTakes(s: bytes, j: nat, depth: nat, key: CString, c: nat, k: nat)
    requires Terminated(s) && j < c < k < |s| && StringAt(s, j, depth) == Ok(key, c)
    requires s[c] == COLON && Skip(s, c) == c && Skip(s, c + 1) == k
    ensures match ValueAt(s, k, depth)
            case Ok(v, at) => MemberAt(s, j, depth) == Ok(Member(key, v), at)
            case Fail(_, _) => MemberAt(s, j, depth).Fail?
  {
    hide StringAt, ValueAt, Skip;
  }

  lemma {:induction false} MembersParse(members: seq<Member>, fmt: bool, level: nat, s: bytes, p: nat, depth: nat)
    requires members != [] && Terminated(s) && 0 < depth <= NESTING_LIMIT && level > 0
    requires At(s, p, MembersText(members, fmt, level))
    requires At(s, p + |MembersText(members, fmt, level)|, Close(fmt, level - 1))
    requires p + |MembersText(members, fmt, level)| + |Close(fmt, level - 1)| < |s|
    ensures var j, end := p + |Indent(fmt, level)|, p + |MembersText(members, fmt, level)| + |Close(fmt, level - 1)|;
            && j < |s|
            && (depth + MembersNesting(members) <= NESTING_LIMIT ==> MembersAt(s, j, depth) == Ok(members, end))
            && (depth + MembersNesting(members) > NESTING_LIMIT ==> MembersAt(s, j, depth).Fail?)
    decreases members, 1
  {
    hide ValueAt, MemberAt, MembersAt, Text, MemberText, MembersText, Skip, Close, At, Blank, Indent, MemberGap, Nesting;
    MembersCons(members, fmt, level);
    MemberStarts(members, fmt, level, s, p);
    MembersNestingCons(members);
    if |members| > 1 {
      MemberParsesBefore(members, fmt, level, s, p, depth);
      MembersParse(members[1..], fmt, level, s, p + |MemberText(members[0], fmt, level)| + |MemberGap(fmt, true)|, depth);
    } else {
      LastMemberParses(members, fmt, level, s, p, depth);
    }
  }

  lemma MembersNestingCons(members: seq<Member>)
    requires members != []
    ensures var rest := MembersNesting(members[1..]);
            && MembersNesting(members) == (if Nesting(members[0].value) > rest then Nesting(members[0].value) else rest)
    ensures MembersNesting([]) == 0
  {
  }

  /** A member with more behind it: it is read, and reading goes on at the next one. */
  lemma {:induction false} MemberParsesBefore(members: seq<Member>, fmt: bool, level: nat, s: bytes, p: nat, depth: nat)
    requires |members| > 1 && Terminated(s) && depth <= NESTING_LIMIT
    requires At(s, p, MembersText(members, fmt, level)) && p + |MembersText(members, fmt, level)| < |s|
    ensures var j, g := p + |Indent(fmt, level)|, p + |MemberText(members[0], fmt, level)| + |MemberGap(fmt, true)|;
            var rest := g + |Indent(fmt, level)|;
            && j < |s| && rest < |s|
            && (depth + Nesting(members[0].value) > NESTING_LIMIT ==> MembersAt(s, j, depth).Fail?)
            && (MembersAt(s, rest, depth).Fail? ==> MembersAt(s, j, depth).Fail?)
            && (depth + Nesting(members[0].value) <= NESTING_LIMIT && MembersAt(s, rest, depth).Ok? && MembersAt(s, rest, depth).v == members[1..] ==>
                  MembersAt(s, j, depth) == Ok(members, MembersAt(s, rest, depth).at))
    decreases members, 0
  {
    hide ValueAt, MemberAt, MembersAt, Text, MemberText, MembersText, Skip, Close, At, Blank, Indent, MemberGap, Nesting;
    MembersCons(members, fmt, level);
    MemberStarts(members, fmt, level, s, p);
    var k := p + |MemberText(members[0], fmt, level)|;
    var g := k + |MemberGap(fmt, true)|;
    GapFollows(s, k, fmt, true);
    MemberParses(members[0], fmt, level, s, p, depth);
    SkipNone(s, k);
    MemberStarts(members[1..], fmt, level, s, g);
    BlankJoin(s, k + 1, g, g + |Indent(fmt, level)|);
    SkipTo(s, k + 1, g + |Indent(fmt, level)|);
    MembersTake(s, p + |Indent(fmt, level)|, depth, k, members);
  }

  lemma {:induction false} LastMemberParses(members: seq<Member>, fmt: bool, level: nat, s: bytes, p: nat, depth: nat)
    requires |members| == 1 && Terminated(s) && level > 0 && depth <= NESTING_LIMIT
    requires At(s, p, MembersText(members, fmt, level))
    requires At(s, p + |MembersText(members, fmt, level)|, Close(fmt, level - 1))
    requires p + |MembersText(members, fmt, level)| + |Close(fmt, level - 1)| < |s|
    ensures var j, end := p + |Indent(fmt, level)|, p + |MembersText(members, fmt, level)| + |Close(fmt, level - 1)|;
            && j < |s|
            && (depth + Nesting(members[0].value) <= NESTING_LIMIT ==> MembersAt(s, j, depth) == Ok(members, end))
            && (depth + Nesting(members[0].value) > NESTING_LIMIT ==> MembersAt(s, j, depth).Fail?)
    decreases members, 0
  {
    hide ValueAt, MemberAt, MembersAt, Text, MemberText, MembersText, Skip, Close, At, Blank, Indent, MemberGap, Nesting;
    MembersCons(members, fmt, level);
    MemberStarts(members, fmt, level, s, p);
    var k := p + |MemberText(members[0], fmt, level)|;
    var g := k + |MemberGap(fmt, false)|;
    GapFollows(s, k, fmt, false);
    assert members[1..] == [];
    NoMembers(fmt, level);
    CloseFollows(s, g, fmt, level - 1);
    var e := g + |Close(fmt, level - 1)| - 1;
    BlankJoin(s, k, g, e);
    SkipTo(s, k, e);
    NoNumber(s, k, e);
    MemberParses(members[0], fmt, level, s, p, depth);
    LastMember(s, p + |Indent(fmt, level)|, depth, k, e, members);
  }

  lemma NoNumber(s: bytes, k: nat, e: nat)
    requires k <= e < |s| && Blank(s, k, e) && s[e] == RBRACE
    ensures !NumberChar(s[k])
  {
  }

  lemma LastMember(s: bytes, j: nat, depth: nat, k: nat, e: nat, members: seq<Member>)
    requires Terminated(s) && j < |s| && k < |s| && |members| == 1
    requires MemberAt(s, j, depth) == Ok(members[0], k) || MemberAt(s, j, depth).Fail?
    requires Skip(s, k) == e && s[e] == RBRACE
    ensures if MemberAt(s, j, depth).Ok? then MembersAt(s, j, depth) == Ok(members, e + 1) else MembersAt(s, j, depth).Fail?
  {
    hide MemberAt;
    assert [members[0]] + [] == members;
  }

  /** One member and the list behind its comma make up the list. */
  lemma MembersTake(s: bytes, j: nat, depth: nat, k: nat, members: seq<Member>)
    requires Terminated(s) && j < k < |s| && |members| > 1
    requires MemberAt(s, j, depth) == Ok(members[0], k) || MemberAt(s, j, depth).Fail?
    requires s[k] == COMMA && Skip(s, k) == k
    ensures var rest := MembersAt(s, Skip(s, k + 1), depth);
            && (MemberAt(s, j, depth).Fail? || rest.Fail? ==> MembersAt(s, j, depth).Fail?)
            && (MemberAt(s, j, depth).Ok? && rest.Ok? && rest.v == members[1..] ==> MembersAt(s, j, depth) == Ok(members, rest.at))
  {
    hide MemberAt;
    assert [members[0]] + members[1..] == members;
  }

  // ---- whole texts ----

  /** Parsing a printed tree, formatted or not and with or without the end check, gives the tree back and
      stops behind its text; a tree nested deeper than the limit is refused.  Both hold for every tree. */
  lemma RoundTrip(v: Json, fmt: bool, requireEnd: bool)
    ensures Nesting(v) <= NESTING_LIMIT <==> Parse(Text(v, fmt, 0), requireEnd).item == Some(v)
    ensures Nesting(v) <= NESTING_LIMIT ==> Parse(Text(v, fmt, 0), requireEnd).end == |Text(v, fmt, 0)|
    ensures Nesting(v) > NESTING_LIMIT ==> Parse(Text(v, fmt, 0), requireEnd).item == None
  {
    hide ValueAt, Text, Nesting, Skip;
    var text := Text(v, fmt, 0);
    var content: bytes := text + [NUL];
    FirstByte(v, fmt, 0);
    AtSplit(content, 0, text, [NUL]);
    assert At(content, 0, content);
    assert AfterBom(content) == 0 by {
      if At(content, 0, BOM) {
        AtByte(content, 0, BOM, 0);
        TextIsAscii(v, fmt, 0);
      }
    }
    SkipNone(content, 0);
    ValueParses(v, fmt, 0, content, 0, 0);
    SkipEnds(content, |text|);
  }

  /** A value's text never starts with a byte order mark. */
  lemma TextIsAscii(v: Json, fmt: bool, depth: nat)
    ensures Text(v, fmt, depth) != [] && Text(v, fmt, depth)[0] < 128
  {
  }

  /** Two trees within the nesting limit print alike in a format only if they are the same tree. */
  lemma PrintingIsInjective(v: Json, w: Json, fmt: bool)
    requires Nesting(v) <= NESTING_LIMIT && Nesting(w) <= NESTING_LIMIT
    requires Text(v, fmt, 0) == Text(w, fmt, 0)
    ensures v == w
  {
    RoundTrip(v, fmt, true);
    RoundTrip(w, fmt, true);
  }
}
