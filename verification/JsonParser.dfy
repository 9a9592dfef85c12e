/** The recursive-descent parser over a shared cursor (cJSON.c:266-340, 698-825, 963-1084, 1212-1264,
    1341-1432, 1497-1603). */
module JsonParser {
  import opened Bytes
  import opened JsonText
  import opened JsonString

  const NESTING_LIMIT := 1000

  /** Success with the next position, or failure with the position and depth the cursor is left at. */
  datatype Parsed<+T> = Ok(v: T, at: nat) | Fail(at: nat, depth: nat)

  /** A parse buffer ends with the NUL of the C string it was made from. */
  predicate Terminated(s: bytes) {
    |s| > 0 && s[|s| - 1] == NUL
  }

  /** buffer_skip_whitespace: anything up to a space counts; the end is pulled back onto the NUL. */
  function Skip(s: bytes, i: nat): (j: nat)
    requires i < |s|
    ensures i <= j < |s|
    decreases |s| - i
  {
    if s[i] > 32 || i + 1 == |s| then i else Skip(s, i + 1)
  }

  // ---- the grammar the parser accepts, as functions of content, position and depth ----

  function Span(s: bytes, i: nat, n: nat): (r: nat)
    requires i <= |s|
    ensures r <= n && i + r <= |s|
    decreases n
  {
    if n > 0 && i < |s| && NumberChar(s[i]) then 1 + Span(s, i + 1, n - 1) else 0
  }

  /** The run of number characters at i, at most what the scratch buffer takes. */
  function NumberRun(s: bytes, i: nat): (r: bytes)
    requires i < |s|
    ensures |r| <= NUMBER_READ_MAX && i + |r| <= |s| && (r != [] ==> r[0] == s[i])
    ensures forall k :: 0 <= k < |r| ==> NumberChar(r[k])
  {
    SpanChars(s, i, NUMBER_READ_MAX);
    s[i..i + Span(s, i, NUMBER_READ_MAX)]
  }

  lemma {:induction false} SpanChars(s: bytes, i: nat, n: nat)
    requires i <= |s|
    ensures forall k :: i <= k < i + Span(s, i, n) ==> NumberChar(s[k])
    decreases n
  {
    if n > 0 && i < |s| && NumberChar(s[i]) {
      SpanChars(s, i + 1, n - 1);
    }
  }

  lemma {:induction false} DigitsEndPrefix(s: bytes, i: nat, n: nat)
    requires i <= n <= |s| && DigitsEnd(s, i) <= n
    ensures DigitsEnd(s[..n], i) == DigitsEnd(s, i)
    decreases n - i
  {
    if i < n && IsDigit(s[i]) {
      DigitsEndPrefix(s, i + 1, n);
    }
  }

  lemma FractionEndPrefix(s: bytes, i: nat, n: nat)
    requires i <= n <= |s| && FractionEnd(s, i) <= n
    ensures FractionEnd(s[..n], i) == FractionEnd(s, i)
  {
    hide DigitsEnd;
    if i < |s| && s[i] == DOT {
      DigitsEndPrefix(s, i + 1, n);
    }
  }

  lemma ExponentEndPrefix(s: bytes, i: nat)
    requires i <= |s|
    ensures ExponentEnd(s[..ExponentEnd(s, i)], i) == ExponentEnd(s, i)
  {
    hide DigitsEnd;
    var e := ExponentEnd(s, i);
    if e > i {
      DigitsEndPrefix(s, if s[i + 1] == PLUS || s[i + 1] == MINUS then i + 2 else i + 1, e);
    }
  }

  /** strtod would take the same number again from just the text it took. */
  lemma StrtodAgain(s: bytes)
    ensures StrtodEnd(s[..StrtodEnd(s)]) == StrtodEnd(s)
  {
    var e, a := StrtodEnd(s), SignEnd(s);
    if e > 0 {
      var b := DigitsEnd(s, a);
      hide DigitsEnd, FractionEnd, ExponentEnd;
      assert SignEnd(s[..e]) == a;
      DigitsEndPrefix(s, a, e);
      FractionEndPrefix(s, b, e);
      ExponentEndPrefix(s, FractionEnd(s, b));
    }
  }

  predicate StartsNumber(c: byte) {
    c == MINUS || IsDigit(c)
  }

  /** The number strtod reads off the copied text, if any. */
  function Strtod(text: bytes): (r: Option<Numeral>)
    requires |text| <= NUMBER_READ_MAX && (text != [] ==> StartsNumber(text[0]))
    requires forall k :: 0 <= k < |text| ==> NumberChar(text[k])
    ensures r.Some? ==> 0 < |r.value| <= |text| && r.value == text[..|r.value|]
  {
    var e := StrtodEnd(text);
    if e == 0 then None
    else
      StrtodAgain(text);
      assert forall k :: 0 <= k < e ==> NumberChar(text[..e][k]);
      var numeral: Numeral := text[..e];
      Some(numeral)
  }

  /** The NUL is no number character, so the run ends before it. */
  lemma NumberWithin(s: bytes, i: nat)
    requires Terminated(s) && i < |s|
    ensures i + |NumberRun(s, i)| < |s|
  {
    hide Span;
    SpanChars(s, i, NUMBER_READ_MAX);
    assert !NumberChar(s[|s| - 1]);
  }

  function NumberAt(s: bytes, i: nat, depth: nat): (r: Parsed<Numeral>)
    requires Terminated(s) && i < |s| && StartsNumber(s[i])
    ensures r.Ok? ==> i < r.at < |s|
    ensures r.Fail? ==> i <= r.at <= |s|
  {
    NumberWithin(s, i);
    match Strtod(NumberRun(s, i))
    case None => Fail(i, depth)
    case Some(text) => Ok(text, i + |text|)
  }

  function StringAt(s: bytes, i: nat, depth: nat): (r: Parsed<CString>)
    requires Terminated(s) && i < |s|
    ensures r.Ok? ==> i < r.at < |s|
    ensures r.Fail? ==> i <= r.at <= |s|
  {
    if s[i] != QUOTE then Fail(i + 1, depth)
    else match Scan(s, i + 1)
      case None => Fail(i + 1, depth)
      case Some(end) => match Unescape(s, i + 1, end)
        case Bad(at) => Fail(at, depth)
        case Good(out) => Ok(CStr(out), end + 1)
  }

  /** The NUL is part of no word, so a word the buffer holds ends before it. */
  predicate WordAt(s: bytes, i: nat, word: CString)
    requires Terminated(s)
    ensures WordAt(s, i, word) ==> i + |word| < |s|
  {
    i + |word| < |s| && At(s, i, word)
  }

  function ValueAt(s: bytes, i: nat, depth: nat): (r: Parsed<Json>)
    requires Terminated(s) && i < |s|
    ensures r.Ok? ==> i < r.at < |s|
    ensures r.Fail? ==> i <= r.at <= |s|
    decreases |s| - i, 2
  {
    if WordAt(s, i, NULL_WORD) then Ok(Null, i + 4)
    else if WordAt(s, i, FALSE_WORD) then Ok(False, i + 5)
    else if WordAt(s, i, TRUE_WORD) then Ok(True, i + 4)
    else if s[i] == QUOTE then
      match StringAt(s, i, depth)
      case Ok(chars, at) => Ok(String(chars), at)
      case Fail(at, d) => Fail(at, d)
    else if StartsNumber(s[i]) then
      match NumberAt(s, i, depth)
      case Ok(text, at) => Ok(Number(text), at)
      case Fail(at, d) => Fail(at, d)
    else if s[i] == LBRACKET then ArrayAt(s, i, depth)
    else if s[i] == LBRACE then ObjectAt(s, i, depth)
    else Fail(i, depth)
  }

  function ArrayAt(s: bytes, i: nat, depth: nat): (r: Parsed<Json>)
    requires Terminated(s) && i < |s| && s[i] == LBRACKET
    ensures r.Ok? ==> i < r.at < |s|
    ensures r.Fail? ==> i <= r.at <= |s|
    decreases |s| - i, 1
  {
    if depth >= NESTING_LIMIT then Fail(i, depth)
    else
      var j := Skip(s, i + 1);
      if s[j] == RBRACKET then Ok(Array([]), j + 1)
      else match ItemsAt(s, j, depth + 1)
        case Ok(items, at) => Ok(Array(items), at)
        case Fail(at, d) => Fail(at, d)
  }

  /** The elements from the first byte of one of them through the closing bracket. */
  function ItemsAt(s: bytes, j: nat, depth: nat): (r: Parsed<seq<Json>>)
    requires Terminated(s) && j < |s|
    ensures r.Ok? ==> j < r.at < |s|
    ensures r.Fail? ==> j <= r.at <= |s|
    decreases |s| - j, 3
  {
    match ValueAt(s, j, depth)
    case Fail(at, d) => Fail(at, d)
    case Ok(v, at) => Prefixed([v], ItemsAfter(s, Skip(s, at), depth))
  }

  /** From the byte after an element: another one after a comma, or the end. */
  function ItemsAfter(s: bytes, m: nat, depth: nat): (r: Parsed<seq<Json>>)
    requires Terminated(s) && m < |s|
    ensures r.Ok? ==> m < r.at < |s|
    ensures r.Fail? ==> m <= r.at <= |s|
    decreases |s| - m, 0
  {
    if s[m] == COMMA then ItemsAt(s, Skip(s, m + 1), depth)
    else if s[m] == RBRACKET then Ok([], m + 1)
    else Fail(m, depth)
  }

  function Prefixed<T>(before: seq<T>, rest: Parsed<seq<T>>): (r: Parsed<seq<T>>)
    ensures r.Ok? ==> rest.Ok? && r.at == rest.at
    ensures r.Fail? ==> rest.Fail? && r.at == rest.at
  {
    match rest
    case Ok(vs, at) => Ok(before + vs, at)
    case Fail(at, d) => Fail(at, d)
  }

  lemma PrefixedTwice<T>(a: seq<T>, b: seq<T>, rest: Parsed<seq<T>>)
    ensures Prefixed(a, Prefixed(b, rest)) == Prefixed(a + b, rest)
  {
    if rest.Ok? {
      assert a + (b + rest.v) == a + b + rest.v;
    }
  }

  function ObjectAt(s: bytes, i: nat, depth: nat): (r: Parsed<Json>)
    requires Terminated(s) && i < |s| && s[i] == LBRACE
    ensures r.Ok? ==> i < r.at < |s|
    ensures r.Fail? ==> i <= r.at <= |s|
    decreases |s| - i, 1
  {
    if depth >= NESTING_LIMIT then Fail(i, depth)
    else
      var j := Skip(s, i + 1);
      if s[j] == RBRACE then Ok(Object([]), j + 1)
      else match MembersAt(s, j, depth + 1)
        case Ok(members, at) => Ok(Object(members), at)
        case Fail(at, d) => Fail(at, d)
  }

  /** The members from the first byte of a name through the closing brace. */
  function MembersAt(s: bytes, j: nat, depth: nat): (r: Parsed<seq<Member>>)
    requires Terminated(s) && j < |s|
    ensures r.Ok? ==> j < r.at < |s|
    ensures r.Fail? ==> j <= r.at <= |s|
    decreases |s| - j, 4
  {
    match MemberAt(s, j, depth)
    case Fail(at, d) => Fail(at, d)
    case Ok(member, at) => Prefixed([member], MembersAfter(s, Skip(s, at), depth))
  }

  function MembersAfter(s: bytes, m: nat, depth: nat): (r: Parsed<seq<Member>>)
    requires Terminated(s) && m < |s|
    ensures r.Ok? ==> m < r.at < |s|
    ensures r.Fail? ==> m <= r.at <= |s|
    decreases |s| - m, 0
  {
    if s[m] == COMMA then MembersAt(s, Skip(s, m + 1), depth)
    else if s[m] == RBRACE then Ok([], m + 1)
    else Fail(m, depth)
  }

  function MemberAt(s: bytes, j: nat, depth: nat): (r: Parsed<Member>)
    requires Terminated(s) && j < |s|
    ensures r.Ok? ==> j < r.at < |s|
    ensures r.Fail? ==> j <= r.at <= |s|
    decreases |s| - j, 3
  {
    match StringAt(s, j, depth)
    case Fail(at, d) => Fail(at, d)
    case Ok(key, at) =>
      var colon := Skip(s, at);
      if s[colon] != COLON then Fail(colon, depth)
      else match ValueAt(s, Skip(s, colon + 1), depth)
        case Fail(at, d) => Fail(at, d)
        case Ok(v, at) => Ok(Member(key, v), at)
  }

  // ---- the cursor ----

  class ParseBuffer {
    const content: bytes
    var offset: nat
    var depth: nat

    ghost predicate Valid()
      reads this
    {
      Terminated(content) && offset <= |content|
    }

    /** r and the cursor are what the grammar function computed. */
    ghost predicate Matches<T>(r: Option<T>, p: Parsed<T>, before: nat)
      reads this
    {
      match p
      case Ok(v, at) => r == Some(v) && offset == at && depth == before
      case Fail(at, d) => r == None && offset == at && depth == d
    }

    constructor (content: bytes)
      requires Terminated(content)
      ensures Valid() && this.content == content && offset == 0 && depth == 0
    {
      this.content := content;
      offset, depth := 0, 0;
    }

    method SkipWhitespace()
      requires Valid() && offset < |content|
      modifies this`offset
      ensures offset == Skip(content, old(offset))
    {
      while offset < |content| && content[offset] <= 32
        invariant old(offset) <= offset <= |content|
        invariant offset < |content| ==> Skip(content, offset) == Skip(content, old(offset))
        invariant offset == |content| ==> Skip(content, old(offset)) == |content| - 1
        decreases |content| - offset
      {
        offset := offset + 1;
      }
      if offset == |content| {
        offset := offset - 1;
      }
    }

    /** Copies the run of number characters at the cursor, as much as the scratch buffer takes. */
    method NumberText() returns (text: bytes)
      requires Valid() && offset < |content|
      ensures text == NumberRun(content, offset)
    {
      var i := 0;
      while i < NUMBER_READ_MAX && offset + i < |content| && NumberChar(content[offset + i])
        invariant 0 <= i <= NUMBER_READ_MAX && offset + i <= |content|
        invariant i + Span(content, offset + i, NUMBER_READ_MAX - i) == Span(content, offset, NUMBER_READ_MAX)
      {
        i := i + 1;
      }
      text := content[offset..offset + i];
    }

    method ParseNumber() returns (r: Option<Numeral>)
      requires Valid() && offset < |content| && StartsNumber(content[offset])
      modifies this`offset
      ensures Matches(r, NumberAt(content, old(offset), old(depth)), old(depth))
    {
      var text := NumberText();
      r := Strtod(text);
      if r.Some? {
        offset := offset + |r.value|;
      }
    }

    /** Both passes; the second one writes into memory of the size the first one estimated. */
    method ParseString() returns (r: Option<CString>)
      requires Valid() && offset < |content|
      modifies this`offset
      ensures Matches(r, StringAt(content, old(offset), old(depth)), old(depth))
    {
      if content[offset] != QUOTE {
        offset := offset + 1;
        return None;
      }
      var found, end, skipped := FindEnd();
      if !found {
        offset := offset + 1;
        return None;
      }
      var estimate := end - offset - skipped;
      var output := new byte[estimate + 1];
      var ok, p, w := UnescapeInto(output, end);
      if !ok {
        offset := p;
        return None;
      }
      output[w] := NUL;
      r := Some(CStr(output[..w]));
      offset := end + 1;
    }

    /** Second pass over the literal that ends at end: p is where it stopped, w how much it wrote. */
    method UnescapeInto(output: array<byte>, end: nat) returns (ok: bool, p: nat, w: nat)
      requires Valid() && offset < |content| && Scan(content, offset + 1) == Some(end)
      requires output.Length > Units(content, offset + 1, end) + 1
      modifies output
      ensures w + 1 < output.Length
      ensures Unescape(content, offset + 1, end) == if ok then Good(output[..w]) else Bad(p)
    {
      hide Unescape, StepAt, Units, Scan;
      p, w := offset + 1, 0;
      ghost var q: nat, written: bytes := p, [];
      ghost var whole := Unescape(content, p, end);
      ScanEnds(content, p);
      PrependNothing(whole);
      while p < end
        invariant Literal(content, p, end)
        invariant Near(content, p, q, end) || (p == end + 1 && q == end)
        invariant w + Units(content, q, end) + 1 < output.Length
        invariant output[..w] == written
        invariant Prepend(written, Unescape(content, p, end)) == whole
        decreases end + 1 - p
      {
        UnescapeOnce(content, p, end);
        var length;
        length, w, q := StepInto(output, p, w, end, q);
        if length == 0 {
          return false, p, w;
        }
        ghost var out := StepAt(content, p, end).out;
        PrependTwice(written, out, Unescape(content, p + length, end));
        written := written + out;
        p := p + length;
      }
      UnescapeOnce(content, p, end);
      assert written + [] == written;
      ok := true;
    }

    /** Writes out one step at w; the first pass, at q, has counted enough bytes for it. */
    method StepInto(output: array<byte>, p: nat, w: nat, end: nat, ghost q: nat)
      returns (length: nat, next: nat, ghost q': nat)
      requires Literal(content, p, end) && p < end && Near(content, p, q, end)
      requires w + Units(content, q, end) + 1 < output.Length
      modifies output
      ensures length == StepAt(content, p, end).length
      ensures length == 0 ==> next == w && output[..w] == old(output[..w])
      ensures length > 0 ==> Near(content, p + length, q', end) || (p + length == end + 1 && q' == end)
      ensures length > 0 ==> next + Units(content, q', end) + 1 < output.Length
      ensures length > 0 ==> output[..next] == old(output[..w]) + StepAt(content, p, end).out
    {
      var step := StepAt(content, p, end);
      length, next, q' := step.length, w, q;
      if length > 0 {
        q' := StepWithinEstimate(content, p, q, end);
        next := CopyOut(output, w, step.out);
      }
    }

    /** First pass: the closing quote and how many escapes came before it. */
    method FindEnd() returns (found: bool, end: nat, skipped: nat)
      requires Valid() && offset < |content| && content[offset] == QUOTE
      ensures found <==> Scan(content, offset + 1).Some?
      ensures found ==> Scan(content, offset + 1) == Some(end)
      ensures found ==> end - offset - skipped == Units(content, offset + 1, end) + 1
    {
      end, skipped := offset + 1, 0;
      ghost var close := Scan(content, end);
      while end < |content| && content[end] != QUOTE
        invariant offset < end <= |content| && skipped <= end - offset
        invariant Scan(content, end) == close
        invariant close.Some? ==>
          Units(content, offset + 1, close.value) == Units(content, end, close.value) + (end - offset - 1 - skipped)
        decreases |content| - end
      {
        if content[end] == BACKSLASH {
          if end + 1 >= |content| {
            return false, end, skipped;
          }
          skipped := skipped + 1;
          end := end + 1;
        }
        end := end + 1;
      }
      found := end < |content|;
    }

    method ParseValue() returns (r: Option<Json>)
      requires Valid() && offset < |content|
      modifies this
      ensures Matches(r, ValueAt(content, old(offset), old(depth)), old(depth))
      decreases |content| - offset, 2
    {
      if WordAt(content, offset, NULL_WORD) {
        offset := offset + 4;
        return Some(Null);
      }
      if WordAt(content, offset, FALSE_WORD) {
        offset := offset + 5;
        return Some(False);
      }
      if WordAt(content, offset, TRUE_WORD) {
        offset := offset + 4;
        return Some(True);
      }
      if content[offset] == QUOTE {
        var chars := ParseString();
        return if chars.Some? then Some(String(chars.value)) else None;
      }
      if StartsNumber(content[offset]) {
        var text := ParseNumber();
        return if text.Some? then Some(Number(text.value)) else None;
      }
      if content[offset] == LBRACKET {
        r := ParseArray();
        return;
      }
      if content[offset] == LBRACE {
        r := ParseObject();
        return;
      }
      return None;
    }

    method ParseArray() returns (r: Option<Json>)
      requires Valid() && offset < |content| && content[offset] == LBRACKET
      modifies this
      ensures Matches(r, ArrayAt(content, old(offset), old(depth)), old(depth))
      decreases |content| - offset, 1
    {
      if depth >= NESTING_LIMIT {
        return None;
      }
      depth := depth + 1;
      offset := offset + 1;
      SkipWhitespace();
      if content[offset] == RBRACKET {
        depth := depth - 1;
        offset := offset + 1;
        return Some(Array([]));
      }
      var items := ParseItems();
      if items.None? {
        return None;
      }
      depth := depth - 1;
      r := Some(Array(items.value));
    }

    /** The do-while loop over the elements: its body runs once, then again after every comma. */
    method ParseItems() returns (r: Option<seq<Json>>)
      requires Valid() && offset < |content|
      modifies this
      ensures Matches(r, ItemsAt(content, old(offset), old(depth)), old(depth))
      decreases |content| - offset, 3
    {
      ghost var whole := ItemsAt(content, offset, depth);
      var item := ParseValue();
      if item.None? {
        return None;
      }
      SkipWhitespace();
      var items := [item.value];
      while content[offset] == COMMA
        invariant Valid() && old(offset) < offset < |content| && depth == old(depth)
        invariant whole == Prefixed(items, ItemsAfter(content, offset, depth))
        decreases |content| - offset
      {
        offset := offset + 1;
        SkipWhitespace();
        item := ParseValue();
        if item.None? {
          return None;
        }
        SkipWhitespace();
        PrefixedTwice(items, [item.value], ItemsAfter(content, offset, depth));
        items := items + [item.value];
      }
      if content[offset] != RBRACKET {
        return None;
      }
      offset := offset + 1;
      assert items + [] == items;
      r := Some(items);
    }

    method ParseObject() returns (r: Option<Json>)
      requires Valid() && offset < |content| && content[offset] == LBRACE
      modifies this
      ensures Matches(r, ObjectAt(content, old(offset), old(depth)), old(depth))
      decreases |content| - offset, 1
    {
      if depth >= NESTING_LIMIT {
        return None;
      }
      depth := depth + 1;
      offset := offset + 1;
      SkipWhitespace();
      if content[offset] == RBRACE {
        depth := depth - 1;
        offset := offset + 1;
        return Some(Object([]));
      }
      var members := ParseMembers();
      if members.None? {
        return None;
      }
      depth := depth - 1;
      r := Some(Object(members.value));
    }

    /** The do-while loop over the members. */
    method ParseMembers() returns (r: Option<seq<Member>>)
      requires Valid() && offset < |content|
      modifies this
      ensures Matches(r, MembersAt(content, old(offset), old(depth)), old(depth))
      decreases |content| - offset, 4
    {
      hide MemberAt;
      ghost var whole := MembersAt(content, offset, depth);
      var member := ParseMember();
      if member.None? {
        return None;
      }
      SkipWhitespace();
      var members := [member.value];
      while content[offset] == COMMA
        invariant Valid() && old(offset) < offset < |content| && depth == old(depth)
        invariant whole == Prefixed(members, MembersAfter(content, offset, depth))
        decreases |content| - offset
      {
        offset := offset + 1;
        SkipWhitespace();
        member := ParseMember();
        if member.None? {
          return None;
        }
        SkipWhitespace();
        PrefixedTwice(members, [member.value], MembersAfter(content, offset, depth));
        members := members + [member.value];
      }
      if content[offset] != RBRACE {
        return None;
      }
      offset := offset + 1;
      assert members + [] == members;
      r := Some(members);
    }

    /** The body of that loop: a name, a colon and a value. */
    method ParseMember() returns (r: Option<Member>)
      requires Valid() && offset < |content|
      modifies this
      ensures Matches(r, MemberAt(content, old(offset), old(depth)), old(depth))
      decreases |content| - offset, 3
    {
      var key := ParseString();
      if key.None? {
        return None;
      }
      SkipWhitespace();
      if content[offset] != COLON {
        return None;
      }
      offset := offset + 1;
      SkipWhitespace();
      var v := ParseValue();
      if v.None? {
        return None;
      }
      r := Some(Member(key.value, v.value));
    }
  }

  // ---- entry point ----

  const BOM: CString := [0xEF, 0xBB, 0xBF]

  function AfterBom(content: bytes): (i: nat)
    ensures content != [] ==> i < |content|
  {
    if 4 < |content| && At(content, 0, BOM) then 3 else 0
  }

  /** The tree, if any, and where parsing ended or the error is reported. */
  datatype Outcome = Outcome(item: Option<Json>, end: nat)

  function Parse(value: CString, requireEnd: bool): (r: Outcome)
    ensures r.end <= |value|
  {
    var content: bytes := value + [NUL];
    match ValueAt(content, Skip(content, AfterBom(content)), 0)
    case Fail(at, _) => Outcome(None, if at < |content| then at else |content| - 1)
    case Ok(v, at) =>
      if !requireEnd then Outcome(Some(v), at)
      else
        var end := Skip(content, at);
        Outcome(if content[end] == NUL then Some(v) else None, end)
  }

  /** cJSON_ParseWithOpts; cJSON_Parse is the call with requireEnd false. */
  method ParseWithOpts(value: CString, requireEnd: bool) returns (r: Outcome)
    ensures r == Parse(value, requireEnd)
  {
    var buffer := new ParseBuffer(value + [NUL]);
    buffer.offset := AfterBom(buffer.content);
    buffer.SkipWhitespace();
    var item := buffer.ParseValue();
    if item.Some? && requireEnd {
      buffer.SkipWhitespace();
      if buffer.content[buffer.offset] != NUL {
        item := None;
      }
    }
    var end := if buffer.offset < |buffer.content| then buffer.offset else |buffer.content| - 1;
    r := Outcome(item, end);
  }

  lemma ScanEnds(s: bytes, p: nat)
    ensures Scan(s, p).Some? ==> p <= Scan(s, p).value < |s|
  {
  }

  lemma PrependNothing(rest: Unescaped)
    ensures Prepend([], rest) == rest
  {
    if rest.Good? {
      assert [] + rest.out == rest.out;
    }
  }

  method CopyOut(output: array<byte>, w: nat, out: bytes) returns (next: nat)
    requires w + |out| <= output.Length
    modifies output
    ensures next == w + |out| && output[..next] == old(output[..w]) + out
  {
    next := w;
    var k := 0;
    while k < |out|
      invariant 0 <= k <= |out| && next == w + k
      invariant output[..next] == old(output[..w]) + out[..k]
    {
      output[next] := out[k];
      next, k := next + 1, k + 1;
    }
  }
}
