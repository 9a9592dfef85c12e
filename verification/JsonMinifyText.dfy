/** Minifying printed text gives the unformatted print of the same tree. */
module JsonMinifyText {
  import opened Bytes
  import opened JsonText
  import opened JsonString
  import opened JsonMinify

  /** Minifying turns s[i..k] into out. */
  predicate Becomes(s: bytes, i: nat, k: nat, out: bytes) {
    i <= k <= |s| && Minified(s, i) == Behind(out, Minified(s, k))
  }

  lemma Join(s: bytes, i: nat, j: nat, k: nat, a: bytes, b: bytes)
    requires Becomes(s, i, j, a) && Becomes(s, j, k, b)
    ensures Becomes(s, i, k, a + b)
  {
    hide Minified;
    BehindTwice(a, b, Minified(s, k));
  }

  lemma Join3(s: bytes, i: nat, j: nat, k: nat, m: nat, a: bytes, b: bytes, c: bytes)
    requires Becomes(s, i, j, a) && Becomes(s, j, k, b) && Becomes(s, k, m, c)
    ensures Becomes(s, i, m, a + b + c)
  {
    hide Becomes;
    Join(s, i, j, k, a, b);
    Join(s, i, k, m, a + b, c);
  }

  /** A byte that is copied as it is, whatever follows it. */
  predicate Plain(c: byte) {
    !Space(c) && c != QUOTE && c != SLASH
  }

  lemma {:induction false} PlainBecomes(s: bytes, i: nat, text: CString)
    requires At(s, i, text) && forall k :: 0 <= k < |text| ==> Plain(text[k])
    ensures Becomes(s, i, i + |text|, text)
    decreases |text|
  {
    if text == [] {
      BehindNothing(Minified(s, i));
    } else {
      var rest := text[1..];
      assert text == [text[0]] + rest;
      AtSplit(s, i, [text[0]], rest);
      AtByte(s, i, text, 0);
      PlainBecomes(s, i + 1, rest);
      Join(s, i, i + 1, i + |text|, [text[0]], rest);
    }
  }

  lemma {:induction false} SpaceBecomes(s: bytes, i: nat, text: CString)
    requires At(s, i, text) && forall k :: 0 <= k < |text| ==> Space(text[k])
    ensures Becomes(s, i, i + |text|, [])
    decreases |text|
  {
    BehindNothing(Minified(s, i + |text|));
    if text != [] {
      var rest := text[1..];
      assert text == [text[0]] + rest;
      AtSplit(s, i, [text[0]], rest);
      AtByte(s, i, text, 0);
      SpaceBecomes(s, i + 1, rest);
      BehindNothing(Minified(s, i + 1));
    }
  }

  lemma QuotedBecomes(s: bytes, i: nat, chars: CString)
    requires At(s, i, Quoted(chars))
    ensures Becomes(s, i, i + |Quoted(chars)|, Quoted(chars))
  {
    hide Scan, Unescape, Escape;
    QuotedParses(s, i, chars);
    AtByte(s, i, Quoted(chars), 0);
    var end := i + 1 + |Escape(chars)|;
    assert s[i..end + 1] == Quoted(chars);
  }

  /** A comma or a colon and the whitespace after it. */
  lemma MarkBecomes(s: bytes, i: nat, mark: nonzero, text: CString)
    requires text != [] && text[0] == mark && Plain(mark) && At(s, i, text)
    requires forall k :: 1 <= k < |text| ==> Space(text[k])
    ensures Becomes(s, i, i + |text|, [mark])
  {
    assert text == [mark] + text[1..];
    AtSplit(s, i, [mark], text[1..]);
    PlainBecomes(s, i, [mark]);
    SpaceBecomes(s, i + 1, text[1..]);
    Join(s, i, i + 1, i + |text|, [mark], []);
    assert [mark] + [] == [mark];
  }

  // ---- values ----

  lemma {:induction false} ValueBecomes(v: Json, fmt: bool, level: nat, s: bytes, i: nat)
    requires At(s, i, Text(v, fmt, level))
    ensures Becomes(s, i, i + |Text(v, fmt, level)|, Text(v, false, level))
    decreases v, 0
  {
    hide Becomes, At, ItemsText, MembersText, Open, Close, Quoted;
    match v {
      case Null => PlainBecomes(s, i, NULL_WORD);
      case False => PlainBecomes(s, i, FALSE_WORD);
      case True => PlainBecomes(s, i, TRUE_WORD);
      case Number(text) => PlainBecomes(s, i, text);
      case String(chars) => QuotedBecomes(s, i, chars);
      case Array(items) =>
        ArrayBecomes(items, fmt, level, s, i);
      case Object(members) =>
        ObjectBecomes(members, fmt, level, s, i);
    }
  }

  lemma {:induction false} ArrayBecomes(items: seq<Json>, fmt: bool, level: nat, s: bytes, i: nat)
    requires At(s, i, Text(Array(items), fmt, level))
    ensures Becomes(s, i, i + |Text(Array(items), fmt, level)|, Text(Array(items), false, level))
    decreases items, 2
  {
    hide Becomes, At, ItemsText;
    var inner, out := ItemsText(items, fmt, level + 1), ItemsText(items, false, level + 1);
    var j := i + 1 + |inner|;
    AtSplit(s, i, [LBRACKET], inner + [RBRACKET]);
    AtSplit(s, i + 1, inner, [RBRACKET]);
    PlainBecomes(s, i, [LBRACKET]);
    ItemsBecome(items, fmt, level + 1, s, i + 1);
    PlainBecomes(s, j, [RBRACKET]);
    Join(s, i + 1, j, j + 1, out, [RBRACKET]);
    Join(s, i, i + 1, j + 1, [LBRACKET], out + [RBRACKET]);
  }

  lemma {:induction false} ItemsBecome(items: seq<Json>, fmt: bool, level: nat, s: bytes, i: nat)
    requires At(s, i, ItemsText(items, fmt, level))
    ensures Becomes(s, i, i + |ItemsText(items, fmt, level)|, ItemsText(items, false, level))
    decreases items, 1
  {
    hide Becomes, At, Text;
    if items == [] {
      SpaceBecomes(s, i, []);
    } else {
      var more := |items| > 1;
      var text, gap, rest := Text(items[0], fmt, level), ItemGap(fmt, more), ItemsText(items[1..], fmt, level);
      AtSplit3(s, i, text, gap, rest);
      ValueBecomes(items[0], fmt, level, s, i);
      GapBecomes(s, i + |text|, fmt, more);
      ItemsBecome(items[1..], fmt, level, s, i + |text| + |gap|);
      Join3(s, i, i + |text|, i + |text| + |gap|, i + |text| + |gap| + |rest|,
            Text(items[0], false, level), ItemGap(false, more), ItemsText(items[1..], false, level));
    }
  }

  lemma GapBecomes(s: bytes, i: nat, fmt: bool, more: bool)
    requires At(s, i, ItemGap(fmt, more))
    ensures Becomes(s, i, i + |ItemGap(fmt, more)|, ItemGap(false, more))
  {
    hide Becomes, At;
    if more {
      MarkBecomes(s, i, COMMA, ItemGap(fmt, more));
    } else {
      SpaceBecomes(s, i, []);
    }
  }

  lemma {:induction false} ObjectBecomes(members: seq<Member>, fmt: bool, level: nat, s: bytes, i: nat)
    requires At(s, i, Text(Object(members), fmt, level))
    ensures Becomes(s, i, i + |Text(Object(members), fmt, level)|, Text(Object(members), false, level))
    decreases members, 2
  {
    hide Becomes, At, MembersText;
    var open, inner, close := Open(fmt), MembersText(members, fmt, level + 1), Close(fmt, level);
    var out := MembersText(members, false, level + 1);
    var j, k := i + |open|, i + |open| + |inner|;
    AtSplit(s, i, open, inner + close);
    AtSplit(s, j, inner, close);
    MarkBecomes(s, i, LBRACE, open);
    MembersBecome(members, fmt, level + 1, s, j);
    CloseBecomes(s, k, fmt, level);
    Join(s, j, k, k + |close|, out, [RBRACE]);
    Join(s, i, j, k + |close|, [LBRACE], out + [RBRACE]);
    assert Close(false, level) == [RBRACE];
  }

  lemma CloseBecomes(s: bytes, i: nat, fmt: bool, level: nat)
    requires At(s, i, Close(fmt, level))
    ensures Becomes(s, i, i + |Close(fmt, level)|, [RBRACE])
  {
    hide Becomes, At;
    var indent := Indent(fmt, level);
    AtSplit(s, i, indent, [RBRACE]);
    SpaceBecomes(s, i, indent);
    PlainBecomes(s, i + |indent|, [RBRACE]);
    Join(s, i, i + |indent|, i + |indent| + 1, [], [RBRACE]);
    assert [] + [RBRACE] == [RBRACE];
  }

  lemma {:induction false} MembersBecome(members: seq<Member>, fmt: bool, level: nat, s: bytes, i: nat)
    requires At(s, i, MembersText(members, fmt, level))
    ensures Becomes(s, i, i + |MembersText(members, fmt, level)|, MembersText(members, false, level))
    decreases members, 1
  {
    hide Becomes, At, MemberText, MemberGap, MembersText;
    MembersParts(members, fmt, level);
    MembersParts(members, false, level);
    if members == [] {
      SpaceBecomes(s, i, []);
    } else {
      var more := |members| > 1;
      var text, gap, rest := MemberText(members[0], fmt, level), MemberGap(fmt, more), MembersText(members[1..], fmt, level);
      AtSplit3(s, i, text, gap, rest);
      MemberBecomes(members[0], fmt, level, s, i);
      MemberGapBecomes(s, i + |text|, fmt, more);
      MembersBecome(members[1..], fmt, level, s, i + |text| + |gap|);
      Join3(s, i, i + |text|, i + |text| + |gap|, i + |text| + |gap| + |rest|,
            MemberText(members[0], false, level), MemberGap(false, more), MembersText(members[1..], false, level));
    }
  }

  lemma MembersParts(members: seq<Member>, fmt: bool, level: nat)
    ensures members == [] ==> MembersText(members, fmt, level) == []
    ensures members != [] ==>
              MembersText(members, fmt, level)
              == MemberText(members[0], fmt, level) + MemberGap(fmt, |members| > 1) + MembersText(members[1..], fmt, level)
  {
    hide MemberText, MemberGap;
  }

  lemma MemberGapBecomes(s: bytes, i: nat, fmt: bool, more: bool)
    requires At(s, i, MemberGap(fmt, more))
    ensures Becomes(s, i, i + |MemberGap(fmt, more)|, MemberGap(false, more))
  {
    hide Becomes, At;
    if more {
      MarkBecomes(s, i, COMMA, MemberGap(fmt, more));
      assert MemberGap(false, more) == [COMMA];
    } else {
      SpaceBecomes(s, i, MemberGap(fmt, more));
      assert MemberGap(false, more) == [];
    }
  }

  lemma {:induction false} MemberBecomes(m: Member, fmt: bool, level: nat, s: bytes, i: nat)
    requires At(s, i, MemberText(m, fmt, level))
    ensures Becomes(s, i, i + |MemberText(m, fmt, level)|, MemberText(m, false, level))
    decreases m, 0
  {
    hide Becomes, At, Text, Quoted, Indent, Colon;
    var indent, key, colon, value := Indent(fmt, level), Quoted(m.key), Colon(fmt), Text(m.value, fmt, level);
    AtSplit(s, i, indent + key + colon, value);
    AtSplit3(s, i, indent, key, colon);
    var j := i + |indent|;
    var c := j + |key|;
    var k := c + |colon|;
    IndentBecomes(s, i, fmt, level);
    QuotedBecomes(s, j, m.key);
    ColonBecomes(s, c, fmt);
    ValueBecomes(m.value, fmt, level, s, k);
    Join3(s, i, j, c, k, [], key, Colon(false));
    Join(s, i, k, k + |value|, [] + key + Colon(false), Text(m.value, false, level));
    assert Indent(false, level) == [] by { NoIndent(level); }
  }

  lemma NoIndent(level: nat)
    ensures Indent(false, level) == []
  {
  }

  lemma IndentBecomes(s: bytes, i: nat, fmt: bool, level: nat)
    requires At(s, i, Indent(fmt, level))
    ensures Becomes(s, i, i + |Indent(fmt, level)|, [])
  {
    SpaceBecomes(s, i, Indent(fmt, level));
  }

  lemma ColonBecomes(s: bytes, i: nat, fmt: bool)
    requires At(s, i, Colon(fmt))
    ensures Becomes(s, i, i + |Colon(fmt)|, Colon(false))
  {
    hide Becomes, At;
    MarkBecomes(s, i, COLON, Colon(fmt));
  }

  /** For every tree, minifying its formatted print gives byte for byte its unformatted print,
      and minifying the unformatted print changes nothing. */
  lemma MinifyPrinted(v: Json, fmt: bool)
    ensures Minified(Text(v, fmt, 0), 0) == Some(Text(v, false, 0))
  {
    hide Text, Minified, At;
    var s: bytes := Text(v, fmt, 0);
    AtWhole(s);
    ValueBecomes(v, fmt, 0, s, 0);
    NothingMore(s);
    assert Text(v, false, 0) + [] == Text(v, false, 0);
  }

  lemma AtWhole(s: bytes)
    ensures At(s, 0, s)
  {
  }

  lemma NothingMore(s: bytes)
    ensures Minified(s, |s|) == Some([])
  {
  }
}
