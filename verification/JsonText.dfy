/** The JSON tree and, as pure functions, the text the printer owes for it. */
module JsonText {
  import opened Bytes

  /** A node of the cJSON tree.  Number text is opaque: a numeral the number reader takes whole. */
  datatype Json =
    | Null
    | False
    | True
    | Number(text: Numeral)
    | String(chars: CString)
    | Array(items: seq<Json>)
    | Object(members: seq<Member>)

  datatype Member = Member(key: CString, value: Json)

  /** Levels of arrays and objects around the innermost value. */
  function Nesting(v: Json): nat {
    match v
    case Array(items) => 1 + ItemsNesting(items)
    case Object(members) => 1 + MembersNesting(members)
    case _ => 0
  }

  function ItemsNesting(items: seq<Json>): nat {
    if items == [] then 0 else Max(Nesting(items[0]), ItemsNesting(items[1..]))
  }

  function MembersNesting(members: seq<Member>): nat {
    if members == [] then 0 else Max(Nesting(members[0].value), MembersNesting(members[1..]))
  }

  function Max(a: nat, b: nat): nat {
    if a < b then b else a
  }

  // ---- numerals ----

  predicate IsDigit(c: byte) { 48 <= c <= 57 }

  /** The bytes the number reader copies before it calls strtod. */
  predicate NumberChar(c: byte) {
    IsDigit(c) || c == PLUS || c == MINUS || c == 101 || c == 69 || c == DOT
  }

  function DigitsEnd(s: bytes, i: nat): (r: nat)
    requires i <= |s|
    ensures i <= r <= |s|
    decreases |s| - i
  {
    if i < |s| && IsDigit(s[i]) then DigitsEnd(s, i + 1) else i
  }

  function SignEnd(s: bytes): (r: nat)
    ensures r <= |s|
  {
    if |s| > 0 && (s[0] == PLUS || s[0] == MINUS) then 1 else 0
  }

  function FractionEnd(s: bytes, i: nat): (r: nat)
    requires i <= |s|
    ensures i <= r <= |s|
  {
    if i < |s| && s[i] == DOT then DigitsEnd(s, i + 1) else i
  }

  /** Behind an exponent that is complete. */
  function ExponentEnd(s: bytes, i: nat): (r: nat)
    requires i <= |s|
    ensures i <= r <= |s|
  {
    if i < |s| && (s[i] == 101 || s[i] == 69) then
      var x := if i + 1 < |s| && (s[i + 1] == PLUS || s[i + 1] == MINUS) then i + 2 else i + 1;
      var y := DigitsEnd(s, x);
      if y > x then y else i
    else i
  }

  /** How many bytes strtod takes off a text over the number alphabet: sign, digits with at
      most one point and at least one digit, then an exponent when it is complete. */
  function StrtodEnd(s: bytes): (r: nat)
    ensures r <= |s|
  {
    var a := SignEnd(s);
    var b := DigitsEnd(s, a);
    var c := FractionEnd(s, b);
    if b == a && c <= b + 1 then 0 else ExponentEnd(s, c)
  }

  /** Longest number text the reader's 64-byte scratch buffer holds with its NUL. */
  const NUMBER_READ_MAX := 63

  /** Longest number text the printer's 26-byte scratch buffer holds with its NUL. */
  const NUMBER_PRINT_MAX := 25

  predicate IsNumeral(s: CString) {
    && 0 < |s| <= NUMBER_READ_MAX
    && (s[0] == MINUS || IsDigit(s[0]))
    && (forall k :: 0 <= k < |s| ==> NumberChar(s[k]))
    && StrtodEnd(s) == |s|
  }

  type Numeral = s: CString | IsNumeral(s) witness ZeroNumeral()

  function ZeroNumeral(): (z: CString)
    ensures IsNumeral(z)
  {
    [48]
  }

  /** Every number text in the tree fits the printer's scratch buffer, as sprintf output does. */
  predicate NumbersFit(v: Json) {
    match v
    case Number(text) => |text| <= NUMBER_PRINT_MAX
    case Array(items) => ItemsNumbersFit(items)
    case Object(members) => MembersNumbersFit(members)
    case _ => true
  }

  predicate ItemsNumbersFit(items: seq<Json>) {
    items != [] ==> NumbersFit(items[0]) && ItemsNumbersFit(items[1..])
  }

  predicate MembersNumbersFit(members: seq<Member>) {
    members != [] ==> NumbersFit(members[0].value) && MembersNumbersFit(members[1..])
  }

  // ---- text ----

  /** Lower-case hexadecimal digit. */
  function HexChar(d: nat): nonzero
    requires d < 16
  {
    if d < 10 then 48 + d else 87 + d
  }

  function EscapeByte(c: nonzero): CString {
    if c == QUOTE || c == BACKSLASH then [BACKSLASH, c]
    else if c == 8 then [BACKSLASH, 98]
    else if c == 12 then [BACKSLASH, 102]
    else if c == NEWLINE then [BACKSLASH, 110]
    else if c == RETURN then [BACKSLASH, 114]
    else if c == TAB then [BACKSLASH, 116]
    else if c < 32 then [BACKSLASH, 117, 48, 48, HexChar(c / 16), HexChar(c % 16)]
    else [c]
  }

  function Escape(s: CString): CString {
    if s == [] then [] else EscapeByte(s[0]) + Escape(s[1..])
  }

  function Quoted(s: CString): CString {
    [QUOTE] + Escape(s) + [QUOTE]
  }

  function Tabs(n: nat): (r: CString)
    ensures |r| == n && forall k :: 0 <= k < n ==> r[k] == TAB
  {
    seq(n, _ => TAB)
  }

  /** Text of v, printed formatted or not, at the printer's nesting depth. */
  function Text(v: Json, fmt: bool, depth: nat): CString
    decreases v
  {
    match v
    case Null => NULL_WORD
    case False => FALSE_WORD
    case True => TRUE_WORD
    case Number(text) => text
    case String(chars) => Quoted(chars)
    case Array(items) => [LBRACKET] + (ItemsText(items, fmt, depth + 1) + [RBRACKET])
    case Object(members) => Open(fmt) + (MembersText(members, fmt, depth + 1) + Close(fmt, depth))
  }

  function ItemsText(items: seq<Json>, fmt: bool, depth: nat): CString
    decreases items
  {
    if items == [] then []
    else Text(items[0], fmt, depth) + ItemGap(fmt, |items| > 1) + ItemsText(items[1..], fmt, depth)
  }

  function MembersText(members: seq<Member>, fmt: bool, depth: nat): CString
    decreases members
  {
    if members == [] then []
    else MemberText(members[0], fmt, depth) + MemberGap(fmt, |members| > 1) + MembersText(members[1..], fmt, depth)
  }

  function MemberText(m: Member, fmt: bool, depth: nat): CString
    decreases m
  {
    Indent(fmt, depth) + Quoted(m.key) + Colon(fmt) + Text(m.value, fmt, depth)
  }

  function Open(fmt: bool): CString {
    if fmt then [LBRACE, NEWLINE] else [LBRACE]
  }

  function Indent(fmt: bool, depth: nat): CString {
    if fmt then Tabs(depth) else []
  }

  function Close(fmt: bool, depth: nat): CString {
    Indent(fmt, depth) + [RBRACE]
  }

  function Colon(fmt: bool): CString {
    if fmt then [COLON, TAB] else [COLON]
  }

  function ItemGap(fmt: bool, more: bool): CString {
    if !more then [] else if fmt then [COMMA, SPACE] else [COMMA]
  }

  function MemberGap(fmt: bool, more: bool): CString {
    (if more then [COMMA] else []) + (if fmt then [NEWLINE] else [])
  }
}
