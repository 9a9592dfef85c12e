/** How printed trees look, said with the characters themselves and by joining the parts: what the gaps, tabs and
    line breaks of both formats are, and which number texts a tree can be printed with (cJSON.c:476-537,
    1435-1494, 1606-1717). */
module JsonLayout {
  import opened Bytes
  import opened JsonText

  /** The bytes of a text in ASCII. */
  function Ascii(text: string): bytes
    requires forall k :: 0 <= k < |text| ==> text[k] as int < 128
  {
    seq(|text|, k requires 0 <= k < |text| => text[k] as int)
  }

  /** The parts, with the gap between any two that follow each other. */
  function Join(parts: seq<bytes>, gap: bytes): bytes {
    if parts == [] then []
    else if |parts| == 1 then parts[0]
    else parts[0] + gap + Join(parts[1..], gap)
  }

  function Repeated(c: byte, n: nat): bytes {
    if n == 0 then [] else [c] + Repeated(c, n - 1)
  }

  function ItemParts(items: seq<Json>, fmt: bool, depth: nat): seq<bytes> {
    seq(|items|, i requires 0 <= i < |items| => Text(items[i], fmt, depth))
  }

  /** A member of a formatted object stands on a line of its own. */
  function Line(m: Member, depth: nat): bytes {
    Repeated('\t' as int, depth) + Quoted(m.key) + Ascii(":\t") + Text(m.value, true, depth)
  }

  function Lines(members: seq<Member>, depth: nat): seq<bytes> {
    seq(|members|, i requires 0 <= i < |members| => Line(members[i], depth))
  }

  function Pairs(members: seq<Member>): seq<bytes> {
    seq(|members|, i requires 0 <= i < |members| => Quoted(members[i].key) + Ascii(":") + Text(members[i].value, false, 0))
  }

  lemma {:induction false} TabsRepeat(n: nat)
    ensures Tabs(n) == Repeated('\t' as int, n)
  {
    if n > 0 {
      TabsRepeat(n - 1);
      assert Tabs(n) == [TAB] + Tabs(n - 1);
    }
  }

  lemma ScalarLayout(fmt: bool, depth: nat, chars: CString)
    ensures Text(Null, fmt, depth) == Ascii("null") && Text(True, fmt, depth) == Ascii("true")
    ensures Text(False, fmt, depth) == Ascii("false")
    ensures Text(String(chars), fmt, depth) == Ascii("\"") + Escape(chars) + Ascii("\"")
  {
    assert Ascii("null") == [110, 117, 108, 108] && Ascii("\"") == [34];
    hide Escape;
  }

  /** An array: brackets around its elements, with a comma, and a space in the formatted text, between them. */
  lemma ArrayLayout(items: seq<Json>, fmt: bool, depth: nat)
    ensures Text(Array(items), fmt, depth) ==
            Ascii("[") + Join(ItemParts(items, fmt, depth + 1), if fmt then Ascii(", ") else Ascii(",")) + Ascii("]")
  {
    ItemsJoin(items, fmt, depth + 1);
    hide ItemsText, Join;
    assert Ascii("[") == [LBRACKET] && Ascii("]") == [RBRACKET];
    var inner := ItemsText(items, fmt, depth + 1);
    assert [LBRACKET] + (inner + [RBRACKET]) == [LBRACKET] + inner + [RBRACKET];
  }

  lemma {:induction false} ItemsJoin(items: seq<Json>, fmt: bool, depth: nat)
    ensures ItemsText(items, fmt, depth) == Join(ItemParts(items, fmt, depth), if fmt then Ascii(", ") else Ascii(","))
  {
    hide Text;
    var gap := if fmt then Ascii(", ") else Ascii(",");
    assert gap == ItemGap(fmt, true);
    if items != [] {
      ItemsJoin(items[1..], fmt, depth);
      assert ItemParts(items, fmt, depth)[1..] == ItemParts(items[1..], fmt, depth);
      if |items| == 1 {
        assert ItemsText(items, fmt, depth) == Text(items[0], fmt, depth) + [] + [];
      }
    }
  }

  /** A formatted object: each member on its own line, one tab further in, with a colon and a tab behind the name;
      the closing brace stands on a line of its own at the depth of the object. */
  lemma ObjectLayout(members: seq<Member>, depth: nat)
    ensures Text(Object(members), true, depth) ==
            Ascii("{\n") + Join(Lines(members, depth + 1), Ascii(",\n")) + (if members == [] then [] else Ascii("\n"))
            + (Repeated('\t' as int, depth) + Ascii("}"))
  {
    LinesJoin(members, depth + 1);
    TabsRepeat(depth);
    hide MembersText, Join;
    assert Ascii("{\n") == [LBRACE, NEWLINE] && Ascii("}") == [RBRACE] && Ascii("\n") == [NEWLINE];
    var joined, end := Join(Lines(members, depth + 1), Ascii(",\n")), if members == [] then [] else Ascii("\n");
    var close := Repeated('\t' as int, depth) + [RBRACE];
    assert [LBRACE, NEWLINE] + ((joined + end) + close) == [LBRACE, NEWLINE] + joined + end + close;
  }

  lemma {:induction false} LinesJoin(members: seq<Member>, depth: nat)
    ensures MembersText(members, true, depth) ==
            Join(Lines(members, depth), Ascii(",\n")) + if members == [] then [] else Ascii("\n")
  {
    hide Text, Quoted;
    assert Ascii(",\n") == [COMMA, NEWLINE] && Ascii("\n") == [NEWLINE];
    if members != [] {
      var m, rest := members[0], members[1..];
      LineIs(m, depth);
      LinesJoin(rest, depth);
      hide MemberText, Line;
      assert Lines(members, depth)[1..] == Lines(rest, depth);
      if rest == [] {
        assert MembersText(members, true, depth) == Line(m, depth) + [NEWLINE] + [];
      } else {
        assert Line(m, depth) + [COMMA, NEWLINE] + (Join(Lines(rest, depth), [COMMA, NEWLINE]) + [NEWLINE])
            == Line(m, depth) + [COMMA, NEWLINE] + Join(Lines(rest, depth), [COMMA, NEWLINE]) + [NEWLINE];
      }
    }
  }

  lemma LineIs(m: Member, depth: nat)
    ensures MemberText(m, true, depth) == Line(m, depth)
  {
    TabsRepeat(depth);
    assert Ascii(":\t") == [COLON, TAB];
    hide Text, Quoted;
  }

  /** An unformatted object: commas between its members and colons behind their names, and nothing else. */
  lemma PlainObjectLayout(members: seq<Member>, depth: nat)
    ensures Text(Object(members), false, depth) == Ascii("{") + Join(Pairs(members), Ascii(",")) + Ascii("}")
  {
    PairsJoin(members, depth + 1);
    hide MembersText, Join;
    assert Ascii("{") == [LBRACE] && Ascii("}") == [RBRACE];
    var joined := Join(Pairs(members), Ascii(","));
    assert [LBRACE] + (joined + ([] + [RBRACE])) == [LBRACE] + joined + [RBRACE];
  }

  lemma {:induction false} PairsJoin(members: seq<Member>, depth: nat)
    ensures MembersText(members, false, depth) == Join(Pairs(members), Ascii(","))
  {
    hide Text, Quoted;
    assert Ascii(",") == [COMMA] && Ascii(":") == [COLON];
    if members != [] {
      var m, rest := members[0], members[1..];
      PlainAnywhere(m.value, depth, 0);
      PairsJoin(rest, depth);
      assert Pairs(members)[1..] == Pairs(rest);
      assert MemberText(m, false, depth) == Quoted(m.key) + [COLON] + Text(m.value, false, 0) by {
        assert [] + Quoted(m.key) == Quoted(m.key);
      }
      hide MemberText;
      if rest == [] {
        assert MembersText(members, false, depth) == MemberText(m, false, depth) + ([] + []) + [];
      }
    }
  }

  /** Without formatting the depth does not matter. */
  lemma {:induction false} PlainAnywhere(v: Json, a: nat, b: nat)
    ensures Text(v, false, a) == Text(v, false, b)
    decreases v
  {
    match v {
      case Array(items) => PlainItems(items, a + 1, b + 1);
      case Object(members) => PlainMembers(members, a + 1, b + 1);
      case _ =>
    }
  }

  lemma {:induction false} PlainItems(items: seq<Json>, a: nat, b: nat)
    ensures ItemsText(items, false, a) == ItemsText(items, false, b)
    decreases items
  {
    if items != [] {
      PlainAnywhere(items[0], a, b);
      PlainItems(items[1..], a, b);
    }
  }

  lemma {:induction false} PlainMembers(members: seq<Member>, a: nat, b: nat)
    ensures MembersText(members, false, a) == MembersText(members, false, b)
    decreases members
  {
    if members != [] {
      PlainAnywhere(members[0].value, a, b);
      PlainMembers(members[1..], a, b);
    }
  }

  // ---- numbers ----

  /** All number texts of a tree, in order. */
  function NumberTexts(v: Json): seq<CString>
    decreases v
  {
    match v
    case Number(text) => [text]
    case Array(items) => ItemNumberTexts(items)
    case Object(members) => MemberNumberTexts(members)
    case _ => []
  }

  function ItemNumberTexts(items: seq<Json>): seq<CString>
    decreases items
  {
    if items == [] then [] else NumberTexts(items[0]) + ItemNumberTexts(items[1..])
  }

  function MemberNumberTexts(members: seq<Member>): seq<CString>
    decreases members
  {
    if members == [] then [] else NumberTexts(members[0].value) + MemberNumberTexts(members[1..])
  }

  predicate AllShort(texts: seq<CString>) {
    forall k :: 0 <= k < |texts| ==> |texts[k]| <= 25
  }

  lemma ShortBoth(a: seq<CString>, b: seq<CString>)
    ensures AllShort(a + b) <==> AllShort(a) && AllShort(b)
  {
    if AllShort(a + b) {
      forall k | 0 <= k < |a| ensures |a[k]| <= 25 {
        assert a[k] == (a + b)[k];
      }
      forall k | 0 <= k < |b| ensures |b[k]| <= 25 {
        assert b[k] == (a + b)[|a| + k];
      }
    }
  }

  /** The numbers of a tree can be printed exactly if each of their texts has at most 25 bytes. */
  lemma {:induction false} NumbersFitIs(v: Json)
    ensures NumbersFit(v) <==> AllShort(NumberTexts(v))
    decreases v
  {
    match v {
      case Array(items) => ItemsFit(items);
      case Object(members) => MembersFit(members);
      case Number(text) => assert NumberTexts(v)[0] == text;
      case _ =>
    }
  }

  lemma {:induction false} ItemsFit(items: seq<Json>)
    ensures ItemsNumbersFit(items) <==> AllShort(ItemNumberTexts(items))
    decreases items
  {
    if items != [] {
      NumbersFitIs(items[0]);
      ItemsFit(items[1..]);
      ShortBoth(NumberTexts(items[0]), ItemNumberTexts(items[1..]));
    }
  }

  lemma {:induction false} MembersFit(members: seq<Member>)
    ensures MembersNumbersFit(members) <==> AllShort(MemberNumberTexts(members))
    decreases members
  {
    if members != [] {
      NumbersFitIs(members[0].value);
      MembersFit(members[1..]);
      ShortBoth(NumberTexts(members[0].value), MemberNumberTexts(members[1..]));
    }
  }
}
