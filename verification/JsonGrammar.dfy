/** The language the parser accepts, said by its concrete syntax and not by a scan: section 2 of RFC 8259 with
    any byte up to a space as whitespace, numbers as strtod takes them, strings as the two passes take them, and
    1000 levels.  Parsing finds exactly the texts that are spelled this way, with exactly their value. */
module JsonGrammar {
  import opened Bytes
  import opened JsonText
  import opened JsonString
  import opened JsonParser
  import JsonRoundTrip
  import Minify = JsonMinifyParse

  /** A value as it is written; `literal` stands between the quotes. */
  datatype Syntax =
    | Word(value: Json)
    | Numeric(text: Numeral)
    | Quote(literal: bytes, chars: CString)
    | Brackets(space: bytes, elements: seq<Element>)
    | Braces(space: bytes, fields: seq<Field>)

  /** An element, the whitespace behind it, and, if another one follows, that behind the comma. */
  datatype Element = Element(value: Syntax, after: bytes, next: bytes)

  /** A member: its name with the whitespace around the colon, and its value like an element. */
  datatype Field = Field(name: bytes, key: CString, before: bytes, behind: bytes, element: Element)

  function Spell(t: Syntax): bytes
    decreases t
  {
    match t
    case Word(v) =>
      if v.Null? then ['n' as int, 'u' as int, 'l' as int, 'l' as int]
      else if v.True? then ['t' as int, 'r' as int, 'u' as int, 'e' as int]
      else ['f' as int, 'a' as int, 'l' as int, 's' as int, 'e' as int]
    case Numeric(text) => text
    case Quote(literal, _) => ['\"' as int] + literal + ['\"' as int]
    case Brackets(space, elements) => ['[' as int] + space + SpellElements(elements)
    case Braces(space, fields) => ['{' as int] + space + SpellFields(fields)
  }

  function SpellElements(es: seq<Element>): bytes
    decreases es
  {
    if es == [] then [']' as int]
    else
      Spell(es[0].value) + (es[0].after + if |es| == 1 then [']' as int] else [',' as int] + es[0].next + SpellElements(es[1..]))
  }

  function SpellFields(fs: seq<Field>): bytes
    decreases fs
  {
    if fs == [] then ['}' as int]
    else
      var e := fs[0].element;
      SpellName(fs[0]) + (Spell(e.value)
      + (e.after + if |fs| == 1 then ['}' as int] else [',' as int] + e.next + SpellFields(fs[1..])))
  }

  function SpellName(f: Field): bytes {
    ['\"' as int] + f.name + ['\"' as int] + (f.before + ([':' as int] + f.behind))
  }

  function ValueOf(t: Syntax): Json
    decreases t
  {
    match t
    case Word(v) => v
    case Numeric(text) => Number(text)
    case Quote(_, chars) => String(chars)
    case Brackets(_, elements) => Array(Values(elements))
    case Braces(_, fields) => Object(Members(fields))
  }

  function Values(es: seq<Element>): seq<Json>
    decreases es
  {
    if es == [] then [] else [ValueOf(es[0].value)] + Values(es[1..])
  }

  function Members(fs: seq<Field>): seq<Member>
    decreases fs
  {
    if fs == [] then [] else [Member(fs[0].key, ValueOf(fs[0].element.value))] + Members(fs[1..])
  }

  /** Bytes that separate tokens. */
  predicate White(space: bytes) {
    forall k :: 0 <= k < |space| ==> space[k] <= ' ' as int
  }

  /** Both passes over the quoted literal take it whole, and give these characters. */
  predicate IsLiteral(literal: bytes, chars: CString) {
    StringAt(['\"' as int] + literal + ['\"' as int] + [NUL], 0, 0) == Ok(chars, |literal| + 2)
  }

  predicate WellFormed(t: Syntax)
    decreases t
  {
    match t
    case Word(v) => v.Null? || v.True? || v.False?
    case Numeric(_) => true
    case Quote(literal, chars) => IsLiteral(literal, chars)
    case Brackets(space, elements) => White(space) && (elements != [] ==> AllElements(elements))
    case Braces(space, fields) => White(space) && (fields != [] ==> AllFields(fields))
  }

  predicate AllElements(es: seq<Element>)
    decreases es
  {
    es != [] ==> WellFormed(es[0].value) && White(es[0].after) && White(es[0].next) && AllElements(es[1..])
  }

  predicate AllFields(fs: seq<Field>)
    decreases fs
  {
    fs != [] ==>
      && IsLiteral(fs[0].name, fs[0].key) && White(fs[0].before) && White(fs[0].behind)
      && WellFormed(fs[0].element.value) && White(fs[0].element.after) && White(fs[0].element.next) && AllFields(fs[1..])
  }

  // ---- whitespace and the first byte ----

  /** Whitespace in front of anything else is skipped. */
  lemma WhiteSkipped(s: bytes, i: nat, space: bytes)
    requires At(s, i, space) && White(space) && i + |space| < |s| && s[i + |space|] > 32
    ensures Skip(s, i) == i + |space|
  {
    forall m | i <= m < i + |space| ensures s[m] <= 32 {
      AtByte(s, i, space, m - i);
    }
    JsonRoundTrip.SkipTo(s, i, i + |space|);
  }

  /** What is skipped is whitespace. */
  lemma {:induction false} SkippedIsWhite(s: bytes, i: nat)
    requires i < |s|
    ensures White(s[i..Skip(s, i)]) && At(s, i, s[i..Skip(s, i)])
    ensures s[Skip(s, i)] > 32 || Skip(s, i) == |s| - 1
    decreases |s| - i
  {
    if s[i] <= 32 && i + 1 < |s| {
      SkippedIsWhite(s, i + 1);
      assert s[i..Skip(s, i)] == [s[i]] + s[i + 1..Skip(s, i + 1)];
    }
  }

  lemma SpelledHead(t: Syntax)
    requires WellFormed(t)
    ensures Spell(t) != [] && 32 < Spell(t)[0] < 128 && Spell(t)[0] != RBRACKET && Spell(t)[0] != RBRACE
  {
  }

  lemma NoNumberAhead(s: bytes, k: nat, space: bytes)
    requires At(s, k, space) && White(space) && k + |space| < |s|
    requires s[k + |space|] == COMMA || s[k + |space|] == RBRACKET || s[k + |space|] == RBRACE
    ensures k < |s| && !NumberChar(s[k])
  {
    if space != [] {
      AtByte(s, k, space, 0);
    }
  }

  // ---- strings, numbers and words ----

  lemma SameText(s: bytes, i: nat, text: bytes, t: bytes)
    requires At(s, i, text) && |text| <= |t| && t[..|text|] == text
    ensures Minify.Same(s, i, t, 0, |text|) && Minify.Same(t, 0, s, i, |text|)
  {
    assert s[i..i + |text|] == text && t[0..|text|] == text;
  }

  lemma LiteralParses(s: bytes, i: nat, literal: bytes, chars: CString, depth: nat)
    requires Terminated(s) && IsLiteral(literal, chars) && At(s, i, [QUOTE] + literal + [QUOTE]) && i + |literal| + 2 < |s|
    ensures s[i] == QUOTE && StringAt(s, i, depth) == Ok(chars, i + |literal| + 2)
  {
    var text := [QUOTE] + literal + [QUOTE];
    var t := text + [NUL];
    assert t[..|text|] == text;
    SameText(s, i, text, t);
    AtByte(s, i, text, 0);
    hide StringAt, At, Minify.Same;
    Minify.StringMoves(t, 0, 0, s, i);
    DepthOnlyReported(s, i, 0, depth);
  }

  lemma DepthOnlyReported(s: bytes, i: nat, a: nat, b: nat)
    requires Terminated(s) && i < |s| && StringAt(s, i, a).Ok?
    ensures StringAt(s, i, b) == StringAt(s, i, a)
  {
    hide Scan, Unescape;
  }

  lemma StringIsLiteral(s: bytes, i: nat, depth: nat) returns (literal: bytes)
    requires Terminated(s) && i < |s| && StringAt(s, i, depth).Ok?
    ensures var r := StringAt(s, i, depth);
            && s[i] == QUOTE && IsLiteral(literal, r.v)
            && At(s, i, [QUOTE] + literal + [QUOTE]) && r.at == i + |literal| + 2
  {
    var r := StringAt(s, i, depth);
    assert s[i] == QUOTE && s[r.at - 1] == QUOTE && r.at >= i + 2 by {
      hide Scan, Unescape;
    }
    literal := s[i + 1..r.at - 1];
    var text := [QUOTE] + literal + [QUOTE];
    QuotedSlice(s, i, r.at);
    var t := text + [NUL];
    assert t[..|text|] == text;
    SameText(s, i, text, t);
    hide StringAt, At, Minify.Same;
    Minify.StringMoves(s, i, depth, t, 0);
    DepthOnlyReported(t, 0, depth, 0);
  }

  lemma QuotedSlice(s: bytes, i: nat, end: nat)
    requires i + 2 <= end <= |s| && s[i] == QUOTE && s[end - 1] == QUOTE
    ensures At(s, i, [QUOTE] + s[i + 1..end - 1] + [QUOTE])
  {
  }

  lemma WordSpelled(v: Json)
    requires v.Null? || v.True? || v.False?
    ensures Spell(Word(v)) == Text(v, false, 0)
  {
  }

  // ---- everything spelled is parsed ----

  /** Levels of brackets and braces. */
  function Levels(t: Syntax): nat {
    Nesting(ValueOf(t))
  }

  /** A value that is spelled, wherever it stands, is parsed as what it spells, unless it is nested too deep. */
  lemma {:induction false} SpelledParses(t: Syntax, s: bytes, i: nat, depth: nat)
    requires Terminated(s) && WellFormed(t) && depth <= 1000
    requires At(s, i, Spell(t)) && i + |Spell(t)| < |s| && (t.Numeric? ==> !NumberChar(s[i + |Spell(t)|]))
    ensures JsonRoundTrip.Reads(ValueAt(s, i, depth), ValueOf(t), i + |Spell(t)|, depth + Levels(t) <= 1000)
    decreases t, 0
  {
    hide At, ValueAt, StringAt, NumberChar, Skip, Terminated;
    match t {
      case Word(v) =>
        WordSpelled(v);
        JsonRoundTrip.WordParses(s, i, v, Spell(t), depth);
      case Numeric(text) => JsonRoundTrip.NumberParses(s, i, text, depth);
      case Quote(literal, chars) =>
        LiteralParses(s, i, literal, chars, depth);
        JsonRoundTrip.NestedStarts(s, i, depth);
      case Brackets(space, elements) => BracketsParse(space, elements, s, i, depth);
      case Braces(space, fields) => BracesParse(space, fields, s, i, depth);
    }
  }

  lemma ArrayBegins(s: bytes, i: nat, depth: nat, j: nat)
    requires Terminated(s) && i < |s| && s[i] == LBRACKET && Skip(s, i + 1) == j < |s|
    ensures ValueAt(s, i, depth) ==
              if depth >= 1000 then Fail(i, depth)
              else if s[j] == RBRACKET then Ok(Array([]), j + 1)
              else match ItemsAt(s, j, depth + 1)
                   case Ok(items, at) => Ok(Array(items), at)
                   case Fail(at, d) => Fail(at, d)
  {
    hide Skip, ItemsAt, ValueAt;
    JsonRoundTrip.NestedStarts(s, i, depth);
  }

  lemma {:induction false} BracketsParse(space: bytes, es: seq<Element>, s: bytes, i: nat, depth: nat)
    requires Terminated(s) && depth <= 1000 && White(space) && AllElements(es)
    requires At(s, i, [LBRACKET] + space + SpellElements(es)) && i + 1 + |space| + |SpellElements(es)| < |s|
    ensures JsonRoundTrip.Reads(ValueAt(s, i, depth), Array(Values(es)), i + 1 + |space| + |SpellElements(es)|,
                                depth + 1 + ItemsNesting(Values(es)) <= 1000)
    decreases es, 2
  {
    hide At, ValueAt, ItemsAt, Skip, SpellElements, AllElements, Values, ItemsNesting, White;
    var j := i + 1 + |space|;
    AtSplit(s, i, [LBRACKET] + space, SpellElements(es));
    AtSplit(s, i, [LBRACKET], space);
    AtByte(s, i, [LBRACKET], 0);
    ElementsHead(es);
    AtByte(s, j, SpellElements(es), 0);
    WhiteSkipped(s, i + 1, space);
    ArrayBegins(s, i, depth, j);
    if es == [] {
      NoElements();
    } else if depth < 1000 {
      ElementsParse(es, s, j, depth + 1);
    }
  }

  lemma NoElements()
    ensures SpellElements([]) == [RBRACKET] && Values([]) == [] && ItemsNesting([]) == 0
  {
  }

  lemma ElementsHead(es: seq<Element>)
    requires AllElements(es)
    ensures SpellElements(es) != [] && SpellElements(es)[0] > 32 && (SpellElements(es)[0] == RBRACKET <==> es == [])
  {
    if es != [] {
      SpelledHead(es[0].value);
    }
  }

  lemma ElementsFirst(es: seq<Element>)
    requires es != [] && AllElements(es)
    ensures var e := es[0];
            && WellFormed(e.value) && White(e.after) && White(e.next) && AllElements(es[1..])
            && Values(es) == [ValueOf(e.value)] + Values(es[1..])
            && SpellElements(es) ==
               Spell(e.value) + (e.after + if |es| == 1 then [RBRACKET] else [COMMA] + e.next + SpellElements(es[1..]))
            && (|es| == 1 ==> Values(es) == [ValueOf(e.value)])
            && ItemsNesting(Values(es)) == Max(Levels(e.value), ItemsNesting(Values(es[1..])))
            && ItemsNesting([]) == 0 && Values([]) == []
  {
    hide Spell, WellFormed, ValueOf;
    assert Values(es)[1..] == Values(es[1..]);
    hide Nesting;
  }

  lemma {:induction false} ElementsParse(es: seq<Element>, s: bytes, j: nat, depth: nat)
    requires es != [] && Terminated(s) && depth <= 1000 && AllElements(es)
    requires At(s, j, SpellElements(es)) && j + |SpellElements(es)| < |s|
    ensures JsonRoundTrip.Reads(ItemsAt(s, j, depth), Values(es), j + |SpellElements(es)|, depth + ItemsNesting(Values(es)) <= 1000)
    decreases es, 1
  {
    hide At, ValueAt, ItemsAt, Skip, SpellElements, AllElements, Values, ItemsNesting, White, Spell, ValueOf, WellFormed, Levels, NumberChar;
    var e, k := es[0], j + |Spell(es[0].value)|;
    var m := k + |e.after|;
    ElementsFirst(es);
    var tail := if |es| == 1 then [RBRACKET] else [COMMA] + e.next + SpellElements(es[1..]);
    AtSplit(s, j, Spell(e.value), e.after + tail);
    AtSplit(s, k, e.after, tail);
    AtByte(s, m, tail, 0);
    NoNumberAhead(s, k, e.after);
    WhiteSkipped(s, k, e.after);
    SpelledHead(e.value);
    SpelledParses(e.value, s, j, depth);
    if |es| == 1 {
      LastElement(s, j, depth, k, m);
    } else {
      var rest := SpellElements(es[1..]);
      AtSplit(s, m, [COMMA] + e.next, rest);
      AtSplit(s, m, [COMMA], e.next);
      ElementsHead(es[1..]);
      AtByte(s, m + 1 + |e.next|, rest, 0);
      WhiteSkipped(s, m + 1, e.next);
      ElementsParse(es[1..], s, m + 1 + |e.next|, depth);
      OneElement(s, j, depth, k, m, m + 1 + |e.next|);
    }
  }

  lemma LastElement(s: bytes, j: nat, depth: nat, k: nat, m: nat)
    requires Terminated(s) && j < k < |s| && Skip(s, k) == m < |s| && s[m] == RBRACKET
    requires ValueAt(s, j, depth).Ok? ==> ValueAt(s, j, depth).at == k
    ensures match ValueAt(s, j, depth)
            case Ok(v, _) => ItemsAt(s, j, depth) == Ok([v], m + 1)
            case Fail(_, _) => ItemsAt(s, j, depth).Fail?
  {
    hide ValueAt, Skip;
    if ValueAt(s, j, depth).Ok? {
      assert [ValueAt(s, j, depth).v] + [] == [ValueAt(s, j, depth).v];
    }
  }

  lemma OneElement(s: bytes, j: nat, depth: nat, k: nat, m: nat, n: nat)
    requires Terminated(s) && j < k < |s| && Skip(s, k) == m < |s| && s[m] == COMMA && m + 1 < |s| && Skip(s, m + 1) == n
    requires ValueAt(s, j, depth).Ok? ==> ValueAt(s, j, depth).at == k
    ensures match ValueAt(s, j, depth)
            case Ok(v, _) => ItemsAt(s, j, depth) == Prefixed([v], ItemsAt(s, n, depth))
            case Fail(_, _) => ItemsAt(s, j, depth).Fail?
  {
    hide ValueAt, Skip;
  }

  // ---- the same for members ----

  lemma ObjectBegins(s: bytes, i: nat, depth: nat, j: nat)
    requires Terminated(s) && i < |s| && s[i] == LBRACE && Skip(s, i + 1) == j < |s|
    ensures ValueAt(s, i, depth) ==
              if depth >= 1000 then Fail(i, depth)
              else if s[j] == RBRACE then Ok(Object([]), j + 1)
              else match MembersAt(s, j, depth + 1)
                   case Ok(members, at) => Ok(Object(members), at)
                   case Fail(at, d) => Fail(at, d)
  {
    hide Skip, MembersAt, ValueAt;
    JsonRoundTrip.NestedStarts(s, i, depth);
  }

  lemma {:induction false} BracesParse(space: bytes, fs: seq<Field>, s: bytes, i: nat, depth: nat)
    requires Terminated(s) && depth <= 1000 && White(space) && AllFields(fs)
    requires At(s, i, [LBRACE] + space + SpellFields(fs)) && i + 1 + |space| + |SpellFields(fs)| < |s|
    ensures JsonRoundTrip.Reads(ValueAt(s, i, depth), Object(Members(fs)), i + 1 + |space| + |SpellFields(fs)|,
                                depth + 1 + MembersNesting(Members(fs)) <= 1000)
    decreases fs, 2
  {
    hide At, ValueAt, MembersAt, Skip, SpellFields, AllFields, Members, MembersNesting, White;
    var j := i + 1 + |space|;
    AtSplit(s, i, [LBRACE] + space, SpellFields(fs));
    AtSplit(s, i, [LBRACE], space);
    AtByte(s, i, [LBRACE], 0);
    FieldsHead(fs);
    AtByte(s, j, SpellFields(fs), 0);
    WhiteSkipped(s, i + 1, space);
    ObjectBegins(s, i, depth, j);
    if fs == [] {
      NoFields();
    } else if depth < 1000 {
      FieldsParse(fs, s, j, depth + 1);
    }
  }

  lemma NoFields()
    ensures SpellFields([]) == [RBRACE] && Members([]) == [] && MembersNesting([]) == 0
  {
  }

  lemma FieldsHead(fs: seq<Field>)
    ensures SpellFields(fs) != [] && SpellFields(fs)[0] == if fs == [] then RBRACE else QUOTE
  {
  }

  lemma FieldsFirst(fs: seq<Field>)
    requires fs != [] && AllFields(fs)
    ensures var f, e := fs[0], fs[0].element;
            && IsLiteral(f.name, f.key) && White(f.before) && White(f.behind)
            && WellFormed(e.value) && White(e.after) && White(e.next) && AllFields(fs[1..])
            && Members(fs) == [Member(f.key, ValueOf(e.value))] + Members(fs[1..])
            && SpellFields(fs) ==
               SpellName(f) + (Spell(e.value) + (e.after + if |fs| == 1 then [RBRACE] else [COMMA] + e.next + SpellFields(fs[1..])))
            && (|fs| == 1 ==> Members(fs) == [Member(f.key, ValueOf(e.value))])
            && MembersNesting(Members(fs)) == Max(Levels(e.value), MembersNesting(Members(fs[1..])))
            && MembersNesting([]) == 0 && Members([]) == []
  {
    hide Spell, WellFormed, ValueOf, IsLiteral, SpellName;
    assert Members(fs)[1..] == Members(fs[1..]);
    hide Nesting;
  }

  /** The name of a member and the colon, up to its value. */
  lemma NameParses(f: Field, s: bytes, j: nat, depth: nat)
    requires Terminated(s) && IsLiteral(f.name, f.key) && White(f.before) && White(f.behind)
    requires At(s, j, SpellName(f)) && j + |SpellName(f)| < |s| && s[j + |SpellName(f)|] > 32
    ensures var at := j + |f.name| + 2;
            var colon := at + |f.before|;
            && colon + 1 < |s| && StringAt(s, j, depth) == Ok(f.key, at)
            && Skip(s, at) == colon && s[colon] == COLON && Skip(s, colon + 1) == j + |SpellName(f)|
  {
    hide At, StringAt, Skip, White, IsLiteral;
    var quoted := [QUOTE] + f.name + [QUOTE];
    AtSplit(s, j, quoted, f.before + ([COLON] + f.behind));
    var at := j + |quoted|;
    AtSplit(s, at, f.before, [COLON] + f.behind);
    AtSplit(s, at + |f.before|, [COLON], f.behind);
    AtByte(s, at + |f.before|, [COLON], 0);
    LiteralParses(s, j, f.name, f.key, depth);
    WhiteSkipped(s, at, f.before);
    WhiteSkipped(s, at + |f.before| + 1, f.behind);
  }

  lemma {:induction false} FieldsParse(fs: seq<Field>, s: bytes, j: nat, depth: nat)
    requires fs != [] && Terminated(s) && depth <= 1000 && AllFields(fs)
    requires At(s, j, SpellFields(fs)) && j + |SpellFields(fs)| < |s|
    ensures JsonRoundTrip.Reads(MembersAt(s, j, depth), Members(fs), j + |SpellFields(fs)|, depth + MembersNesting(Members(fs)) <= 1000)
    decreases fs, 1
  {
    hide At, ValueAt, StringAt, MemberAt, MembersAt, Skip, SpellFields, AllFields, Members, MembersNesting, White, Spell, ValueOf;
    hide WellFormed, Levels, NumberChar, SpellName, IsLiteral;
    var f, e := fs[0], fs[0].element;
    FieldsFirst(fs);
    var i := j + |SpellName(f)|;
    var k := i + |Spell(e.value)|;
    var m := k + |e.after|;
    var rest := SpellFields(fs[1..]);
    FieldsHead(fs[1..]);
    FieldLayout(f, s, j, if |fs| == 1 then [RBRACE] else [COMMA] + e.next + rest);
    NameParses(f, s, j, depth);
    SpelledParses(e.value, s, i, depth);
    MemberIs(s, j, depth, f.key, j + |f.name| + 2, j + |f.name| + 2 + |f.before|, i);
    if |fs| == 1 {
      LastMember(s, j, depth, k, m);
    } else {
      CommaLayout(s, m, e.next, rest);
      FieldsParse(fs[1..], s, m + 1 + |e.next|, depth);
      OneMember(s, j, depth, k, m, m + 1 + |e.next|);
    }
  }

  /** Where the parts of a member lie. */
  lemma FieldLayout(f: Field, s: bytes, j: nat, tail: bytes)
    requires WellFormed(f.element.value) && White(f.element.after) && tail != [] && (tail[0] == COMMA || tail[0] == RBRACE)
    requires At(s, j, SpellName(f) + (Spell(f.element.value) + (f.element.after + tail)))
    ensures var i := j + |SpellName(f)|;
            var k := i + |Spell(f.element.value)|;
            var m := k + |f.element.after|;
            && At(s, j, SpellName(f)) && At(s, i, Spell(f.element.value)) && At(s, m, tail)
            && i < k <= m < |s| && s[i] > 32 && Skip(s, k) == m && s[m] == tail[0] && !NumberChar(s[k])
  {
    hide At, Skip, White, Spell, WellFormed, NumberChar, SpellName;
    var e := f.element;
    var i := j + |SpellName(f)|;
    var k := i + |Spell(e.value)|;
    AtSplit(s, j, SpellName(f), Spell(e.value) + (e.after + tail));
    AtSplit(s, i, Spell(e.value), e.after + tail);
    AtSplit(s, k, e.after, tail);
    AtByte(s, k + |e.after|, tail, 0);
    NoNumberAhead(s, k, e.after);
    WhiteSkipped(s, k, e.after);
    SpelledHead(e.value);
    AtByte(s, i, Spell(e.value), 0);
  }

  lemma CommaLayout(s: bytes, m: nat, next: bytes, rest: bytes)
    requires At(s, m, [COMMA] + next + rest) && White(next) && rest != [] && rest[0] > 32
    ensures var n := m + 1 + |next|; m + 1 < |s| && n < |s| && At(s, n, rest) && Skip(s, m + 1) == n
  {
    hide At, Skip, White;
    AtSplit(s, m, [COMMA] + next, rest);
    AtSplit(s, m, [COMMA], next);
    AtByte(s, m + 1 + |next|, rest, 0);
    WhiteSkipped(s, m + 1, next);
  }

  lemma MemberIs(s: bytes, j: nat, depth: nat, key: CString, at: nat, colon: nat, i: nat)
    requires Terminated(s) && j < |s| && StringAt(s, j, depth) == Ok(key, at) && at < |s| && Skip(s, at) == colon
    requires colon + 1 < |s| && s[colon] == COLON && Skip(s, colon + 1) == i
    ensures match ValueAt(s, i, depth)
            case Ok(v, end) => MemberAt(s, j, depth) == Ok(Member(key, v), end)
            case Fail(_, _) => MemberAt(s, j, depth).Fail?
  {
    hide ValueAt, Skip, StringAt;
  }

  lemma LastMember(s: bytes, j: nat, depth: nat, k: nat, m: nat)
    requires Terminated(s) && j < k < |s| && Skip(s, k) == m < |s| && s[m] == RBRACE
    requires MemberAt(s, j, depth).Ok? ==> MemberAt(s, j, depth).at == k
    ensures match MemberAt(s, j, depth)
            case Ok(v, _) => MembersAt(s, j, depth) == Ok([v], m + 1)
            case Fail(_, _) => MembersAt(s, j, depth).Fail?
  {
    hide MemberAt, Skip;
    if MemberAt(s, j, depth).Ok? {
      assert [MemberAt(s, j, depth).v] + [] == [MemberAt(s, j, depth).v];
    }
  }

  lemma OneMember(s: bytes, j: nat, depth: nat, k: nat, m: nat, n: nat)
    requires Terminated(s) && j < k < |s| && Skip(s, k) == m < |s| && s[m] == COMMA && m + 1 < |s| && Skip(s, m + 1) == n
    requires MemberAt(s, j, depth).Ok? ==> MemberAt(s, j, depth).at == k
    ensures match MemberAt(s, j, depth)
            case Ok(v, _) => MembersAt(s, j, depth) == Prefixed([v], MembersAt(s, n, depth))
            case Fail(_, _) => MembersAt(s, j, depth).Fail?
  {
    hide MemberAt, Skip;
  }

  // ---- everything parsed is spelled ----

  /** Whatever is parsed is spelled in the text where it was parsed, and nested no deeper than allowed. */
  lemma {:induction false} ParsedIsSpelled(s: bytes, i: nat, depth: nat) returns (t: Syntax)
    requires Terminated(s) && i < |s| && depth <= 1000 && ValueAt(s, i, depth).Ok?
    ensures var r := ValueAt(s, i, depth);
            && WellFormed(t) && ValueOf(t) == r.v && At(s, i, Spell(t)) && r.at == i + |Spell(t)|
            && depth + Levels(t) <= 1000
            && (t.Numeric? ==> StartsNumber(s[i]) && Strtod(NumberRun(s, i)) == Some(t.text))
    decreases |s| - i, 2
  {
    hide ValueAt, StringAt, At, NumberRun, Strtod;
    Minify.ValueHead(s, i, depth);
    Minify.ValueKinds(s, i, depth);
    var r := ValueAt(s, i, depth);
    match r.v {
      case String(chars) =>
        var literal := StringIsLiteral(s, i, depth);
        t := Quote(literal, chars);
      case Array(_) => t := BracketsOf(s, i, depth);
      case Object(_) => t := BracesOf(s, i, depth);
      case Number(text) =>
        t := Numeric(text);
        ScalarSpelled(s, i, depth);
      case v =>
        t := Word(v);
        WordSpelled(v);
        ScalarSpelled(s, i, depth);
    }
  }

  lemma ScalarSpelled(s: bytes, i: nat, depth: nat)
    requires Terminated(s) && i < |s| && ValueAt(s, i, depth).Ok?
    requires var v := ValueAt(s, i, depth).v; v.Null? || v.False? || v.True? || v.Number?
    ensures var r := ValueAt(s, i, depth);
            && At(s, i, Text(r.v, false, 0)) && r.at == i + |Text(r.v, false, 0)|
            && (r.v.Number? ==> StartsNumber(s[i]) && Strtod(NumberRun(s, i)) == Some(r.v.text))
  {
    Minify.ScalarText(s, i, depth);
    hide StringAt, ArrayAt, ObjectAt, At, NumberRun, Strtod;
  }

  lemma {:induction false} BracketsOf(s: bytes, i: nat, depth: nat) returns (t: Syntax)
    requires Terminated(s) && i < |s| && depth <= 1000 && s[i] == LBRACKET && ValueAt(s, i, depth).Ok?
    ensures t.Brackets? && WellFormed(t) && ValueOf(t) == ValueAt(s, i, depth).v && At(s, i, Spell(t))
    ensures ValueAt(s, i, depth).at == i + |Spell(t)| && depth + Levels(t) <= 1000
    decreases |s| - i, 1
  {
    hide ValueAt, At, ItemsAt, Skip, SpellElements, AllElements, Values, ItemsNesting, White, WellFormed, Spell, ValueOf, Levels;
    NotLast(s, i);
    var j := Skip(s, i + 1);
    var space := s[i + 1..j];
    SkippedIsWhite(s, i + 1);
    ArrayBegins(s, i, depth, j);
    AtOne(s, i);
    var es := [];
    if s[j] == RBRACKET {
      NoElements();
      NothingMore();
      AtOne(s, j);
    } else {
      es := ElementsOf(s, j, depth + 1);
    }
    AtSplit(s, i, [LBRACKET], space);
    AtSplit(s, i, [LBRACKET] + space, SpellElements(es));
    t := Brackets(space, es);
    BracketsSpell(space, es);
  }

  lemma BracketsSpell(space: bytes, es: seq<Element>)
    requires White(space) && AllElements(es)
    ensures var t := Brackets(space, es);
            && WellFormed(t) && ValueOf(t) == Array(Values(es)) && Spell(t) == [LBRACKET] + space + SpellElements(es)
            && Levels(t) == 1 + ItemsNesting(Values(es))
  {
    hide SpellElements, Values, White, AllElements;
  }

  lemma BracesSpell(space: bytes, fs: seq<Field>)
    requires White(space) && AllFields(fs)
    ensures var t := Braces(space, fs);
            && WellFormed(t) && ValueOf(t) == Object(Members(fs)) && Spell(t) == [LBRACE] + space + SpellFields(fs)
            && Levels(t) == 1 + MembersNesting(Members(fs))
  {
    hide SpellFields, Members, White, AllFields;
  }

  lemma NotLast(s: bytes, i: nat)
    requires Terminated(s) && i < |s| && s[i] != NUL
    ensures i + 1 < |s|
  {
  }

  lemma AtOne(s: bytes, i: nat)
    requires i < |s|
    ensures At(s, i, [s[i]])
  {
  }

  lemma {:induction false} ElementsOf(s: bytes, j: nat, depth: nat) returns (es: seq<Element>)
    requires Terminated(s) && j < |s| && depth <= 1000 && ItemsAt(s, j, depth).Ok?
    ensures var r := ItemsAt(s, j, depth);
            && es != [] && AllElements(es) && Values(es) == r.v && At(s, j, SpellElements(es))
            && r.at == j + |SpellElements(es)| && depth + ItemsNesting(Values(es)) <= 1000
    decreases |s| - j, 3
  {
    hide ValueAt, At, ItemsAt, Skip, SpellElements, AllElements, Values, ItemsNesting, White, WellFormed, ValueOf, Spell, Levels;
    ItemsBegin(s, j, depth);
    var v := ParsedIsSpelled(s, j, depth);
    var k := ValueAt(s, j, depth).at;
    var m := Skip(s, k);
    var after := s[k..m];
    SkippedIsWhite(s, k);
    AtOne(s, m);
    if s[m] == COMMA {
      var n := Skip(s, m + 1);
      var next := s[m + 1..n];
      SkippedIsWhite(s, m + 1);
      var rest := ElementsOf(s, n, depth);
      es := [Element(v, after, next)] + rest;
      ElementsCons(Element(v, after, next), rest);
      AtSplit(s, m, [COMMA], next);
      AtSplit(s, m, [COMMA] + next, SpellElements(rest));
      AtSplit(s, k, after, [COMMA] + next + SpellElements(rest));
      AtSplit(s, j, Spell(v), after + ([COMMA] + next + SpellElements(rest)));
    } else {
      es := [Element(v, after, [])] + [];
      NothingMore();
      ElementsCons(Element(v, after, []), []);
      AtSplit(s, k, after, [RBRACKET]);
      AtSplit(s, j, Spell(v), after + [RBRACKET]);
    }
  }

  lemma NothingMore()
    ensures White([]) && AllElements([]) && AllFields([])
  {
  }

  lemma ItemsBegin(s: bytes, j: nat, depth: nat)
    requires Terminated(s) && j < |s| && ItemsAt(s, j, depth).Ok?
    ensures ValueAt(s, j, depth).Ok? && j < ValueAt(s, j, depth).at < |s|
    ensures var r, v, k := ItemsAt(s, j, depth), ValueAt(s, j, depth).v, ValueAt(s, j, depth).at;
            var m := Skip(s, k);
            && k <= m < |s| && m < r.at
            && (s[m] == COMMA || s[m] == RBRACKET)
            && (s[m] == COMMA ==>
                  && m + 1 < |s| && m < Skip(s, m + 1) < |s| && ItemsAt(s, Skip(s, m + 1), depth).Ok?
                  && r == Ok([v] + ItemsAt(s, Skip(s, m + 1), depth).v, ItemsAt(s, Skip(s, m + 1), depth).at))
            && (s[m] == RBRACKET ==> r == Ok([v], m + 1))
  {
    hide ValueAt, Skip;
    var v := ValueAt(s, j, depth).v;
    assert [v] + [] == [v];
  }

  lemma ElementsCons(e: Element, rest: seq<Element>)
    requires WellFormed(e.value) && White(e.after) && White(e.next) && AllElements(rest)
    ensures var es := [e] + rest;
            && AllElements(es) && Values(es) == [ValueOf(e.value)] + Values(rest) && (rest == [] ==> Values(es) == [ValueOf(e.value)])
            && SpellElements(es) == Spell(e.value) + (e.after + if rest == [] then [RBRACKET] else [COMMA] + e.next + SpellElements(rest))
            && ItemsNesting(Values(es)) == Max(Levels(e.value), ItemsNesting(Values(rest))) && ItemsNesting(Values([])) == 0
  {
    hide Spell, WellFormed, ValueOf;
    var es := [e] + rest;
    assert es[1..] == rest && Values(es)[1..] == Values(rest);
    hide Nesting;
  }

  lemma {:induction false} BracesOf(s: bytes, i: nat, depth: nat) returns (t: Syntax)
    requires Terminated(s) && i < |s| && depth <= 1000 && s[i] == LBRACE && ValueAt(s, i, depth).Ok?
    ensures t.Braces? && WellFormed(t) && ValueOf(t) == ValueAt(s, i, depth).v && At(s, i, Spell(t))
    ensures ValueAt(s, i, depth).at == i + |Spell(t)| && depth + Levels(t) <= 1000
    decreases |s| - i, 1
  {
    hide ValueAt, At, MembersAt, Skip, SpellFields, AllFields, Members, MembersNesting, White, WellFormed, Spell, ValueOf, Levels;
    NotLast(s, i);
    var j := Skip(s, i + 1);
    var space := s[i + 1..j];
    SkippedIsWhite(s, i + 1);
    ObjectBegins(s, i, depth, j);
    AtOne(s, i);
    var fs := [];
    if s[j] == RBRACE {
      NoFields();
      NothingMore();
      AtOne(s, j);
    } else {
      fs := FieldsOf(s, j, depth + 1);
    }
    AtSplit(s, i, [LBRACE], space);
    AtSplit(s, i, [LBRACE] + space, SpellFields(fs));
    t := Braces(space, fs);
    BracesSpell(space, fs);
  }

  lemma {:induction false} FieldsOf(s: bytes, j: nat, depth: nat) returns (fs: seq<Field>)
    requires Terminated(s) && j < |s| && depth <= 1000 && MembersAt(s, j, depth).Ok?
    ensures var r := MembersAt(s, j, depth);
            && fs != [] && AllFields(fs) && Members(fs) == r.v && At(s, j, SpellFields(fs))
            && r.at == j + |SpellFields(fs)| && depth + MembersNesting(Members(fs)) <= 1000
    decreases |s| - j, 4
  {
    hide MemberAt, At, MembersAt, Skip, SpellFields, AllFields, Members, MembersNesting, White, WellFormed, ValueOf, Spell, Levels;
    hide SpellName, IsLiteral;
    MembersBegin(s, j, depth);
    var f := FieldOf(s, j, depth);
    var v, k := f.element.value, MemberAt(s, j, depth).at;
    var m := Skip(s, k);
    var after := s[k..m];
    SkippedIsWhite(s, k);
    AtOne(s, m);
    if s[m] == COMMA {
      var n := Skip(s, m + 1);
      var next := s[m + 1..n];
      SkippedIsWhite(s, m + 1);
      var rest := FieldsOf(s, n, depth);
      var g := f.(element := Element(v, after, next));
      fs := [g] + rest;
      SameNamed(f, g);
      FieldsCons(g, rest);
      AtSplit(s, m, [COMMA], next);
      AtSplit(s, m, [COMMA] + next, SpellFields(rest));
      AtSplit(s, k, after, [COMMA] + next + SpellFields(rest));
      AtSplit(s, j + |SpellName(f)|, Spell(v), after + ([COMMA] + next + SpellFields(rest)));
      AtSplit(s, j, SpellName(f), Spell(v) + (after + ([COMMA] + next + SpellFields(rest))));
    } else {
      var g := f.(element := Element(v, after, []));
      fs := [g] + [];
      SameNamed(f, g);
      NothingMore();
      FieldsCons(g, []);
      AtSplit(s, k, after, [RBRACE]);
      AtSplit(s, j + |SpellName(f)|, Spell(v), after + [RBRACE]);
      AtSplit(s, j, SpellName(f), Spell(v) + (after + [RBRACE]));
    }
  }

  lemma SameNamed(f: Field, g: Field)
    requires g == f.(element := g.element)
    ensures SpellName(g) == SpellName(f)
  {
  }

  lemma MembersBegin(s: bytes, j: nat, depth: nat)
    requires Terminated(s) && j < |s| && MembersAt(s, j, depth).Ok?
    ensures MemberAt(s, j, depth).Ok? && j < MemberAt(s, j, depth).at < |s|
    ensures var r, v, k := MembersAt(s, j, depth), MemberAt(s, j, depth).v, MemberAt(s, j, depth).at;
            var m := Skip(s, k);
            && k <= m < |s| && m < r.at
            && (s[m] == COMMA || s[m] == RBRACE)
            && (s[m] == COMMA ==>
                  && m + 1 < |s| && m < Skip(s, m + 1) < |s| && MembersAt(s, Skip(s, m + 1), depth).Ok?
                  && r == Ok([v] + MembersAt(s, Skip(s, m + 1), depth).v, MembersAt(s, Skip(s, m + 1), depth).at))
            && (s[m] == RBRACE ==> r == Ok([v], m + 1))
  {
    hide MemberAt, Skip;
    var v := MemberAt(s, j, depth).v;
    assert [v] + [] == [v];
  }

  /** A member that is parsed: its name, the colon and its value. */
  lemma {:induction false} FieldOf(s: bytes, j: nat, depth: nat) returns (f: Field)
    requires Terminated(s) && j < |s| && depth <= 1000 && MemberAt(s, j, depth).Ok?
    ensures var r, v := MemberAt(s, j, depth), f.element.value;
            && IsLiteral(f.name, f.key) && White(f.before) && White(f.behind) && WellFormed(v)
            && r.v == Member(f.key, ValueOf(v)) && depth + Levels(v) <= 1000
            && At(s, j, SpellName(f)) && At(s, j + |SpellName(f)|, Spell(v)) && r.at == j + |SpellName(f)| + |Spell(v)|
    decreases |s| - j, 3
  {
    hide ValueAt, StringAt, At, Skip, White, WellFormed, ValueOf, Spell, Levels, IsLiteral;
    MemberBegins(s, j, depth);
    var literal := StringIsLiteral(s, j, depth);
    var at := StringAt(s, j, depth).at;
    var colon := Skip(s, at);
    var i := Skip(s, colon + 1);
    SkippedIsWhite(s, at);
    SkippedIsWhite(s, colon + 1);
    var v := ParsedIsSpelled(s, i, depth);
    f := Field(literal, StringAt(s, j, depth).v, s[at..colon], s[colon + 1..i], Element(v, [], []));
    AtOne(s, colon);
    AtSplit(s, colon, [COLON], f.behind);
    AtSplit(s, at, f.before, [COLON] + f.behind);
    AtSplit(s, j, [QUOTE] + literal + [QUOTE], f.before + ([COLON] + f.behind));
  }

  lemma MemberBegins(s: bytes, j: nat, depth: nat)
    requires Terminated(s) && j < |s| && MemberAt(s, j, depth).Ok?
    ensures StringAt(s, j, depth).Ok? && j < StringAt(s, j, depth).at < |s|
    ensures var at := StringAt(s, j, depth).at;
            var colon := Skip(s, at);
            && at <= colon && colon + 1 < |s| && s[colon] == COLON
            && var i := Skip(s, colon + 1);
               && colon < i < |s| && ValueAt(s, i, depth).Ok?
               && MemberAt(s, j, depth) == Ok(Member(StringAt(s, j, depth).v, ValueAt(s, i, depth).v), ValueAt(s, i, depth).at)
  {
    hide ValueAt, Skip, StringAt;
  }

  lemma FieldsCons(f: Field, rest: seq<Field>)
    requires IsLiteral(f.name, f.key) && White(f.before) && White(f.behind)
    requires WellFormed(f.element.value) && White(f.element.after) && White(f.element.next) && AllFields(rest)
    ensures var fs, e := [f] + rest, f.element;
            && AllFields(fs) && Members(fs) == [Member(f.key, ValueOf(e.value))] + Members(rest)
            && (rest == [] ==> Members(fs) == [Member(f.key, ValueOf(e.value))])
            && SpellFields(fs) ==
               SpellName(f) + (Spell(e.value) + (e.after + if rest == [] then [RBRACE] else [COMMA] + e.next + SpellFields(rest)))
            && MembersNesting(Members(fs)) == Max(Levels(e.value), MembersNesting(Members(rest))) && MembersNesting(Members([])) == 0
  {
    hide Spell, WellFormed, ValueOf, IsLiteral, SpellName;
    var fs := [f] + rest;
    assert fs[1..] == rest && Members(fs)[1..] == Members(rest);
    hide Nesting;
  }

  // ---- whole texts ----

  /** A text: perhaps a byte order mark, whitespace, a value nested at most 1000 deep, and the rest. */
  predicate IsText(value: bytes, start: bytes, before: bytes, t: Syntax, after: bytes) {
    && (start == [] || start == [0xEF, 0xBB, 0xBF]) && White(before) && WellFormed(t) && Levels(t) <= 1000
    && value == start + before + Spell(t) + after
  }

  /** Where the value stands in a text. */
  lemma TextStarts(value: CString, start: bytes, before: bytes, t: Syntax, after: bytes)
    requires IsText(value, start, before, t, after)
    ensures var c, i := value + [NUL], |start| + |before|;
            && Terminated(c) && Skip(c, AfterBom(c)) == i && At(c, i, Spell(t)) && i + |Spell(t)| <= |value|
            && c[i..] == Spell(t) + after + [NUL] && c[i + |Spell(t)|..] == after + [NUL]
  {
    hide Spell, WellFormed, Levels, Skip, AfterBom, White, At;
    SpelledHead(t);
    TextSlices(value, start, before, Spell(t), after);
    BomFound(value + [NUL], start, before, Spell(t)[0]);
    WhiteSkipped(value + [NUL], |start|, before);
  }

  lemma TextSlices(value: bytes, start: bytes, before: bytes, text: bytes, after: bytes)
    requires value == start + before + text + after && text != []
    ensures var c, i := value + [NUL], |start| + |before|;
            && i + |text| <= |value| && c[i] == text[0] && At(c, i, text) && At(c, |start|, before)
            && c[i..] == text + after + [NUL] && c[i + |text|..] == after + [NUL]
            && c[..|start|] == start && c[|start|..i] == before
  {
    var c, i := value + [NUL], |start| + |before|;
    assert c[i..] == text + after + [NUL];
    assert c[i + |text|..] == after + [NUL];
    assert c[i..i + |text|] == text;
    assert c[|start|..i] == before;
  }

  lemma BomFound(c: bytes, start: bytes, before: bytes, first: byte)
    requires (start == [] || start == [0xEF, 0xBB, 0xBF]) && White(before) && first < 128
    requires |c| > |start| + |before| + 1 && c[..|start|] == start && c[|start|..|start| + |before|] == before
    requires c[|start| + |before|] == first
    ensures AfterBom(c) == |start|
  {
    if start == [] {
      assert c[0] == if before == [] then first else before[0];
      if At(c, 0, BOM) {
        AtByte(c, 0, BOM, 0);
      }
    } else {
      assert At(c, 0, BOM);
    }
  }

  /** A value that stands there is parsed; a number is if strtod takes no more off what follows. */
  lemma TextParses(value: CString, start: bytes, before: bytes, t: Syntax, after: bytes)
    requires IsText(value, start, before, t, after)
    requires t.Numeric? ==> Minify.TakesNoMore(t.text, after)
    ensures var c, i := value + [NUL], |start| + |before|;
            ValueAt(c, i, 0) == Ok(ValueOf(t), i + |Spell(t)|)
  {
    hide Minify.TakesNoMore, ValueAt, Spell, WellFormed, Levels, ValueOf, At, Skip, AfterBom, White;
    TextStarts(value, start, before, t, after);
    var c, i := value + [NUL], |start| + |before|;
    if t.Numeric? {
      NumericSpell(t);
      Minify.NumberKept(c, i, t.text, after);
      NumberEnds(c, i, t.text);
    } else {
      SpelledParses(t, c, i, 0);
    }
  }

  lemma NumberEnds(c: bytes, i: nat, text: Numeral)
    requires Terminated(c) && i < |c| && ValueAt(c, i, 0).Ok? && ValueAt(c, i, 0).v == Number(text)
    ensures ValueAt(c, i, 0) == Ok(Number(text), i + |text|)
  {
    ScalarSpelled(c, i, 0);
  }

  /** What is parsed is such a text. */
  lemma ParsedText(value: CString) returns (start: bytes, before: bytes, t: Syntax, after: bytes)
    requires var c := value + [NUL]; ValueAt(c, Skip(c, AfterBom(c)), 0).Ok?
    ensures var c := value + [NUL];
            var r := ValueAt(c, Skip(c, AfterBom(c)), 0);
            && IsText(value, start, before, t, after) && ValueOf(t) == r.v
            && r.at == |value| - |after| && (t.Numeric? ==> Minify.TakesNoMore(t.text, after))
  {
    hide ValueAt, WellFormed, Levels, Spell, ValueOf, Minify.TakesNoMore, At, Skip, AfterBom, White;
    var c := value + [NUL];
    var a := AfterBom(c);
    var i := Skip(c, a);
    var r := ValueAt(c, i, 0);
    t := ParsedIsSpelled(c, i, 0);
    SkippedIsWhite(c, a);
    start, before, after := value[..a], value[a..i], value[r.at..];
    PartsJoin(value, a, i, r.at, Spell(t));
    BomIs(value);
    if t.Numeric? {
      NumericSpell(t);
      Minify.NumberKept(c, i, t.text, after);
    }
  }

  lemma PartsJoin(value: bytes, a: nat, i: nat, end: nat, text: bytes)
    requires a <= i <= end <= |value| && At(value + [NUL], i, text) && end == i + |text|
    ensures value == value[..a] + value[a..i] + text + value[end..]
    ensures (value + [NUL])[a..i] == value[a..i] && (value + [NUL])[i..] == text + value[end..] + [NUL]
  {
    assert text == value[i..end];
  }

  lemma NumericSpell(t: Syntax)
    requires t.Numeric?
    ensures Spell(t) == t.text && ValueOf(t) == Number(t.text)
  {
  }

  lemma ParseWithEnd(value: CString)
    ensures var c := value + [NUL];
            var r := ValueAt(c, Skip(c, AfterBom(c)), 0);
            Parse(value, true).item == if r.Ok? && c[Skip(c, r.at)] == NUL then Some(r.v) else None
  {
    hide ValueAt, Skip, AfterBom;
  }

  lemma BomIs(value: CString)
    ensures var a := AfterBom(value + [NUL]); a <= |value| && (value[..a] == [] || value[..a] == [0xEF, 0xBB, 0xBF])
  {
    var c := value + [NUL];
    if AfterBom(c) == 3 {
      AtByte(c, 0, BOM, 0);
      AtByte(c, 0, BOM, 1);
      AtByte(c, 0, BOM, 2);
      assert value[..3] == [c[0], c[1], c[2]];
    }
  }

  ghost predicate SpelledText(value: CString, v: Json, end: nat) {
    exists start: bytes, before: bytes, t: Syntax, after: bytes ::
      && IsText(value, start, before, t, after) && ValueOf(t) == v && end == |value| - |after|
      && (t.Numeric? ==> Minify.TakesNoMore(t.text, after))
  }

  ghost predicate SpelledWhole(value: CString, v: Json) {
    exists start: bytes, before: bytes, t: Syntax, after: bytes ::
      IsText(value, start, before, t, after) && ValueOf(t) == v && White(after)
  }

  /** Without the end check: the tree and the end that are returned are those of a text spelled there, whatever
      comes behind it, provided that strtod takes no more off that. */
  lemma ParsesBeginning(value: CString, v: Json, end: nat)
    ensures Parse(value, false) == Outcome(Some(v), end) <==> SpelledText(value, v, end)
  {
    hide ValueAt, WellFormed, Levels, Spell, ValueOf, Minify.TakesNoMore, IsText, Parse, Skip, AfterBom, At;
    Minify.ParseWithoutEnd(value);
    if Parse(value, false) == Outcome(Some(v), end) {
      var start, before, t, after := ParsedText(value);
    }
    if start: bytes, before: bytes, t: Syntax, after: bytes :|
        && IsText(value, start, before, t, after) && ValueOf(t) == v && end == |value| - |after|
        && (t.Numeric? ==> Minify.TakesNoMore(t.text, after)) {
      TextStarts(value, start, before, t, after);
      TextParses(value, start, before, t, after);
      TextLength(value, start, before, t, after);
    }
  }

  lemma TextLength(value: bytes, start: bytes, before: bytes, t: Syntax, after: bytes)
    requires IsText(value, start, before, t, after)
    ensures |start| + |before| + |Spell(t)| == |value| - |after|
  {
  }

  lemma {:induction false} SkipToEnd(s: bytes, i: nat)
    requires i < |s| && forall m :: i <= m < |s| ==> s[m] <= 32
    ensures Skip(s, i) == |s| - 1
    decreases |s| - i
  {
    if i + 1 < |s| {
      SkipToEnd(s, i + 1);
    }
  }

  lemma WhiteToEnd(c: bytes, k: nat, after: bytes)
    requires k < |c| && c[k..] == after + [NUL]
    ensures White(after) ==> Skip(c, k) == |c| - 1
    ensures NUL !in after && c[Skip(c, k)] == NUL ==> White(after)
  {
    if White(after) {
      forall m | k <= m < |c| ensures c[m] <= 32 {
        assert c[m] == c[k..][m - k];
      }
      SkipToEnd(c, k);
    }
    if NUL !in after && c[Skip(c, k)] == NUL {
      var e := Skip(c, k);
      SkippedIsWhite(c, k);
      assert c[e] == c[k..][e - k];
      assert e == |c| - 1;
      assert after == c[k..e];
    }
  }

  /** A number in front of whitespace or the end keeps to itself. */
  lemma NumberBeforeWhite(text: Numeral, after: bytes)
    requires White(after)
    ensures Minify.TakesNoMore(text, after)
  {
    var t := text + after + [NUL];
    assert t[0..] == t;
    assert t[0] == text[0] && t[|text|] == (if after == [] then NUL else after[0]);
    assert At(t, 0, text) by {
      assert forall k :: 0 <= k < |text| ==> t[0 + k] == text[k];
    }
    JsonRoundTrip.NumberParses(t, 0, text, 0);
    Minify.NumberKept(t, 0, text, after);
  }

  /** With the end check: a tree is returned exactly for the texts of that value, which end in whitespace. */
  lemma ParsesExactly(value: CString, v: Json)
    ensures Parse(value, true).item == Some(v) <==> SpelledWhole(value, v)
  {
    hide ValueAt, WellFormed, Levels, Spell, ValueOf, Minify.TakesNoMore, IsText, White, Parse, Skip, AfterBom, At;
    var c := value + [NUL];
    ParseWithEnd(value);
    if Parse(value, true).item == Some(v) {
      var start, before, t, after := ParsedText(value);
      TextStarts(value, start, before, t, after);
      TextLength(value, start, before, t, after);
      NoNul(value, start, before, t, after);
      WhiteToEnd(c, |value| - |after|, after);
    }
    if start: bytes, before: bytes, t: Syntax, after: bytes :|
        IsText(value, start, before, t, after) && ValueOf(t) == v && White(after) {
      if t.Numeric? {
        NumberBeforeWhite(t.text, after);
      }
      TextStarts(value, start, before, t, after);
      TextParses(value, start, before, t, after);
      TextLength(value, start, before, t, after);
      WhiteToEnd(c, |value| - |after|, after);
    }
  }

  lemma NoNul(value: CString, start: bytes, before: bytes, t: Syntax, after: bytes)
    requires IsText(value, start, before, t, after)
    ensures NUL !in after
  {
    forall k | 0 <= k < |after| ensures after[k] != NUL {
      assert after[k] == value[|value| - |after| + k];
    }
  }

  /** Where an error is reported: never in front of the value; and if only the end check fails, at the first byte
      behind the value that is no whitespace. */
  lemma ErrorPosition(value: CString)
    ensures var c, strict, loose := value + [NUL], Parse(value, true), Parse(value, false);
            && (strict.item.None? ==> Skip(c, AfterBom(c)) <= strict.end <= |value|)
            && (loose.item.None? ==> strict == loose)
            && (strict.item.None? && loose.item.Some? ==>
                  && loose.end <= strict.end < |value| && White(value[loose.end..strict.end])
                  && value[strict.end] > ' ' as int)
  {
    hide Skip, AfterBom, White;
    var c := value + [NUL];
    var r := ValueAt(c, Skip(c, AfterBom(c)), 0);
    hide ValueAt;
    if r.Ok? {
      SkippedIsWhite(c, r.at);
      var end := Skip(c, r.at);
      if c[end] != NUL {
        assert c[r.at..end] == value[r.at..end];
      }
    }
  }
}
