/** The printer: writes into a buffer that grows while printing (cJSON.c:373-537, 827-961, 1087-1210,
    1267-1338, 1435-1494, 1606-1717). */
module JsonPrinter {
  import opened Bytes
  import opened JsonText

  const INT_MAX: nat := 0x7fff_ffff

  /** How much of the text a printer writes is missing from `buffer[..offset]` is left to UpdateOffset. */
  class PrintBuffer {
    var buffer: array<byte>
    var offset: nat
    var depth: nat
    const noalloc: bool
    const format: bool

    ghost predicate Valid()
      reads this
    {
      && buffer.Length <= INT_MAX
      && (buffer.Length == 0 ==> offset == 0)
      && (buffer.Length > 0 ==> offset < buffer.Length)
    }

    /** Bytes the buffer may ever hold: fixed for a caller's own buffer, INT_MAX for a growing one. */
    ghost function Capacity(): nat
      reads this
    {
      if noalloc then buffer.Length else INT_MAX
    }

    ghost function Done(): bytes
      requires offset <= buffer.Length
      reads this, buffer
    {
      buffer[..offset]
    }

    /** The buffer holds prefix, text and a NUL; offset may still lag behind anywhere inside text. */
    ghost predicate Holds(prefix: bytes, text: CString)
      reads this, buffer
    {
      && |prefix| <= offset <= |prefix| + |text| < buffer.Length
      && buffer[..|prefix| + |text|] == prefix + text
      && buffer[|prefix| + |text|] == NUL
    }

    constructor (size: nat, noalloc: bool, format: bool)
      requires size <= INT_MAX
      ensures Valid() && fresh(buffer) && buffer.Length == size
      ensures offset == 0 && depth == 0 && this.noalloc == noalloc && this.format == format
    {
      buffer := new byte[size];
      offset, depth := 0, 0;
      this.noalloc, this.format := noalloc, format;
    }

    /** Wraps a buffer the caller supplies. */
    constructor Preallocated(buf: array<byte>, format: bool)
      requires buf.Length <= INT_MAX
      ensures Valid() && buffer == buf
      ensures offset == 0 && depth == 0 && noalloc && this.format == format
    {
      buffer := buf;
      offset, depth := 0, 0;
      noalloc := true;
      this.format := format;
    }

    /** Makes room for needed bytes and one more after offset, reallocating if allowed. */
    method Ensure(needed: nat) returns (ok: bool)
      requires buffer.Length <= INT_MAX
      modifies this`buffer
      ensures ok <==> old(buffer.Length == 0 || offset < buffer.Length) && offset + needed + 1 <= old(Capacity())
      ensures buffer.Length <= INT_MAX && Capacity() == old(Capacity())
      ensures ok ==> offset + needed < buffer.Length
      ensures buffer == old(buffer) || (!noalloc && fresh(buffer))
      ensures !ok || offset + needed < old(buffer.Length) ==> buffer == old(buffer)
      ensures ok && offset + needed >= old(buffer.Length) ==>
                var total := offset + needed + 1;
                buffer.Length == if total <= 0x3fff_ffff then 2 * total else 0x7fff_ffff
      ensures old(offset < buffer.Length) ==> offset < buffer.Length && buffer[..offset] == old(buffer[..offset])
    {
      if buffer.Length > 0 && offset >= buffer.Length {
        return false;
      }
      if needed > INT_MAX {
        return false;
      }
      var total := needed + offset + 1;
      if total <= buffer.Length {
        return true;
      }
      if noalloc {
        return false;
      }
      var newSize;
      if total > INT_MAX / 2 {
        if total <= INT_MAX {
          newSize := INT_MAX;
        } else {
          return false;
        }
      } else {
        newSize := total * 2;
      }
      var grown := new byte[newSize];
      var from := buffer;
      var i := 0;
      while i < from.Length
        invariant 0 <= i <= from.Length
        invariant grown[..i] == from[..i] && buffer == from
      {
        grown[i] := from[i];
        i := i + 1;
      }
      buffer := grown;
      return true;
    }

    /** Advances offset to the NUL, as strlen from offset finds it. */
    method UpdateOffset(ghost prefix: bytes, ghost text: CString)
      requires Valid() && Holds(prefix, text)
      modifies this`offset
      ensures offset == |prefix| + |text| && Holds(prefix, text) && Valid()
    {
      var at := offset;
      while buffer[at] != NUL
        invariant offset <= at <= |prefix| + |text|
        decreases |prefix| + |text| - at
      {
        at := at + 1;
      }
      assert forall k :: 0 <= k < |text| ==> buffer[|prefix| + k] == (prefix + text)[|prefix| + k] == text[k];
      offset := at;
    }

    /** Stores one byte at position at. */
    method Put(at: nat, c: byte)
      requires at < buffer.Length
      modifies buffer
      ensures buffer[..at + 1] == old(buffer[..at]) + [c]
    {
      buffer[at] := c;
    }

    /** Stores the NUL behind the first at bytes. */
    method Terminate(at: nat)
      requires at < buffer.Length
      modifies buffer
      ensures buffer[..at] == old(buffer[..at]) && buffer[at] == NUL
    {
      buffer[at] := NUL;
    }

    /** Copies s to position at. */
    method CopyBytes(at: nat, s: CString)
      requires at + |s| <= buffer.Length
      modifies buffer
      ensures buffer[..at + |s|] == old(buffer[..at]) + s
    {
      var i := 0;
      while i < |s|
        invariant 0 <= i <= |s|
        invariant buffer[..at + i] == old(buffer[..at]) + s[..i]
      {
        buffer[at + i] := s[i];
        i := i + 1;
      }
    }

    /** strcpy of s and its NUL at offset, which stays put. */
    method CopyString(s: CString)
      requires Valid() && offset + |s| < buffer.Length
      modifies buffer
      ensures Holds(old(buffer[..offset]), s)
    {
      CopyBytes(offset, s);
      buffer[offset + |s|] := NUL;
    }

    /** Writes n tabs at position at. */
    method WriteTabs(at: nat, n: nat)
      requires at + n <= buffer.Length
      modifies buffer
      ensures buffer[..at + n] == old(buffer[..at]) + Tabs(n)
    {
      var i := 0;
      while i < n
        invariant 0 <= i <= n
        invariant buffer[..at + i] == old(buffer[..at]) + Tabs(i)
      {
        buffer[at + i] := TAB;
        i := i + 1;
      }
    }

    /** Writes one byte of a string, escaped if JSON needs it, and returns the next free position. */
    method WriteEscaped(at: nat, c: nonzero) returns (next: nat)
      requires at + |EscapeByte(c)| <= buffer.Length
      modifies buffer
      ensures next == at + |EscapeByte(c)|
      ensures buffer[..next] == old(buffer[..at]) + EscapeByte(c)
    {
      if c > 31 && c != QUOTE && c != BACKSLASH {
        buffer[at] := c;
        return at + 1;
      }
      buffer[at] := BACKSLASH;
      if c == BACKSLASH || c == QUOTE {
        buffer[at + 1] := c;
      } else if c == 8 {
        buffer[at + 1] := 98;
      } else if c == 12 {
        buffer[at + 1] := 102;
      } else if c == NEWLINE {
        buffer[at + 1] := 110;
      } else if c == RETURN {
        buffer[at + 1] := 114;
      } else if c == TAB {
        buffer[at + 1] := 116;
      } else {
        buffer[at + 1], buffer[at + 2], buffer[at + 3] := 117, 48, 48;
        buffer[at + 4], buffer[at + 5] := HexChar(c / 16), HexChar(c % 16);
        return at + 6;
      }
      return at + 2;
    }

    /** First pass over a string: how many bytes escaping adds. */
    method CountEscapes(s: CString) returns (extra: nat)
      ensures |s| + extra == |Escape(s)|
    {
      extra := 0;
      var i := 0;
      while i < |s|
        invariant 0 <= i <= |s|
        invariant i + extra + |Escape(s[i..])| == |Escape(s)|
      {
        assert s[i..][1..] == s[i + 1..];
        var c := s[i];
        if c == QUOTE || c == BACKSLASH || c == 8 || c == 12 || c == NEWLINE || c == RETURN || c == TAB {
          extra := extra + 1;
        } else if c < 32 {
          extra := extra + 5;
        }
        i := i + 1;
      }
    }

    /** Second pass: the escaped bytes of s from position at. */
    method WriteEscapedString(at: nat, s: CString)
      requires at + |Escape(s)| <= buffer.Length
      modifies buffer
      ensures buffer[..at + |Escape(s)|] == old(buffer[..at]) + Escape(s)
    {
      hide Escape, EscapeByte;
      ghost var prefix := buffer[..at];
      ghost var done: CString := [];
      var i, to := 0, at;
      EscapeEnds(s);
      while i < |s|
        invariant 0 <= i <= |s| && to == at + |done| <= buffer.Length
        invariant buffer[..to] == prefix + done
        invariant done + Escape(s[i..]) == Escape(s)
      {
        EscapeFrom(s, i);
        MoveAcross(prefix, done, EscapeByte(s[i]), Escape(s[i + 1..]));
        to := WriteEscaped(to, s[i]);
        done := done + EscapeByte(s[i]);
        i := i + 1;
      }
      assert s[i..] == [] && done + [] == done;
    }

    static lemma EscapeEnds(s: CString)
      ensures Escape([]) == [] && s[0..] == s && [] + Escape(s) == Escape(s)
    {
    }

    static lemma EscapeFrom(s: CString, i: nat)
      requires i < |s|
      ensures Escape(s[i..]) == EscapeByte(s[i]) + Escape(s[i + 1..])
    {
      hide EscapeByte;
      assert s[i..][1..] == s[i + 1..];
    }

    /** The next piece may be counted to what is still to come or to what is done. */
    static lemma MoveAcross(prefix: bytes, done: CString, first: CString, rest: CString)
      ensures done + first + rest == done + (first + rest)
      ensures prefix + done + first == prefix + (done + first)
      ensures |done| + |first| <= |done + (first + rest)|
    {
    }

    /** The characters between the quotes: copied as they are when nothing needs escaping. */
    method WriteCharacters(at: nat, s: CString, length: nat)
      requires length == |Escape(s)| && at + length <= buffer.Length
      modifies buffer
      ensures buffer[..at + length] == old(buffer[..at]) + Escape(s)
    {
      if length == |s| {
        EscapeUnchanged(s);
        CopyBytes(at, s);
      } else {
        WriteEscapedString(at, s);
      }
    }

    /** The quoted string and its NUL at offset, which stays put. */
    method WriteQuoted(s: CString, length: nat)
      requires Valid() && length == |Escape(s)| && offset + length + 2 < buffer.Length
      modifies buffer
      ensures Holds(old(Done()), Quoted(s))
    {
      hide Escape, Quoted;
      ghost var prefix := Done();
      QuotedParts(prefix, s);
      Put(offset, QUOTE);
      WriteCharacters(offset + 1, s, length);
      Put(offset + 1 + length, QUOTE);
      Terminate(offset + 1 + length + 1);
    }

    static lemma QuotedParts(prefix: bytes, s: CString)
      ensures |Quoted(s)| == |Escape(s)| + 2
      ensures prefix + [QUOTE] + Escape(s) + [QUOTE] == prefix + Quoted(s)
    {
      hide Escape;
    }

    static lemma {:induction false} EscapeUnchanged(s: CString)
      ensures |Escape(s)| >= |s|
      ensures |Escape(s)| == |s| ==> Escape(s) == s
    {
      if s != [] {
        EscapeUnchanged(s[1..]);
      }
    }

    method PrintString(s: CString) returns (ok: bool)
      requires Valid()
      modifies this`buffer, buffer
      ensures ok <==> offset + |Quoted(s)| + 2 <= old(Capacity())
      ensures buffer == old(buffer) || (!noalloc && fresh(buffer))
      ensures Valid() && Capacity() == old(Capacity())
      ensures ok ==> Holds(old(Done()), Quoted(s))
    {
      var extra := CountEscapes(s);
      var length := |s| + extra;
      ok := Ensure(length + 3);
      if ok {
        WriteQuoted(s, length);
      }
    }

    method PrintNumber(text: Numeral) returns (ok: bool)
      requires Valid()
      modifies this`buffer, this`offset, buffer
      ensures ok <==> |text| <= NUMBER_PRINT_MAX && old(offset) + |text| + 2 <= old(Capacity())
      ensures buffer == old(buffer) || (!noalloc && fresh(buffer))
      ensures Valid() && Capacity() == old(Capacity())
      ensures ok ==> Holds(old(Done()), text) && offset == old(offset) + |text|
    {
      if |text| > NUMBER_PRINT_MAX {
        return false;
      }
      ok := Ensure(|text| + 1);
      if !ok {
        return;
      }
      CopyString(text);
      offset := offset + |text|;
    }

    /** Writes s and a NUL, and advances offset past s. */
    method Emit(s: CString)
      requires Valid() && offset + |s| < buffer.Length
      modifies this`offset, buffer
      ensures Valid() && offset == old(offset) + |s|
      ensures Done() == old(Done()) + s
    {
      CopyString(s);
      offset := offset + |s|;
    }

    /** Indentation of a member: depth tabs when printing formatted. */
    method PrintIndent() returns (ok: bool)
      requires Valid() && buffer.Length > 0
      modifies this`buffer, this`offset, buffer
      ensures buffer == old(buffer) || (!noalloc && fresh(buffer))
      ensures Valid() && Capacity() == old(Capacity()) && buffer.Length > 0
      ensures ok <==> old(offset) + |Indent(format, depth)| + 1 <= old(Capacity())
      ensures ok ==> Done() == old(Done()) + Indent(format, depth)
    {
      if !format {
        assert Done() == Done() + [];
        return true;
      }
      ok := Ensure(depth);
      if ok {
        WriteTabs(offset, depth);
        offset := offset + depth;
      }
    }

    /** Reserves room for s and a NUL, writes both and advances past s. */
    method PrintPunctuation(s: CString) returns (ok: bool)
      requires Valid()
      modifies this`buffer, this`offset, buffer
      ensures buffer == old(buffer) || (!noalloc && fresh(buffer))
      ensures Valid() && Capacity() == old(Capacity())
      ensures ok <==> old(offset) + |s| + 2 <= old(Capacity())
      ensures ok ==> Done() == old(Done()) + s && buffer.Length > 0
    {
      ok := Ensure(|s| + 1);
      if ok {
        Emit(s);
      }
    }

    /** The name of a member and the colon after it. */
    method PrintKey(key: CString) returns (ok: bool)
      requires Valid()
      modifies this`buffer, this`offset, buffer
      ensures buffer == old(buffer) || (!noalloc && fresh(buffer))
      ensures Valid() && Capacity() == old(Capacity())
      ensures ok <==> old(offset) + |Quoted(key) + Colon(format)| + 1 <= old(Capacity())
      ensures ok ==> Done() == old(Done()) + (Quoted(key) + Colon(format)) && buffer.Length > 0
    {
      assert |Colon(format)| >= 1;
      hide Quoted, Colon;
      ghost var prefix := Done();
      ok := PrintString(key);
      if !ok {
        return;
      }
      UpdateOffset(prefix, Quoted(key));
      Regroup(prefix, Quoted(key), Colon(format));
      ok := PrintColon();
    }

    /** The colon and the tab after it; the reservation has no room for a NUL behind them. */
    method PrintColon() returns (ok: bool)
      requires Valid()
      modifies this`buffer, this`offset, buffer
      ensures buffer == old(buffer) || (!noalloc && fresh(buffer))
      ensures Valid() && Capacity() == old(Capacity())
      ensures ok <==> old(offset) + |Colon(format)| + 1 <= old(Capacity())
      ensures ok ==> Done() == old(Done()) + Colon(format) && buffer.Length > 0
    {
      var colon := Colon(format);
      hide Colon;
      ok := Ensure(|colon|);
      if ok {
        CopyBytes(offset, colon);
        offset := offset + |colon|;
      }
    }

    /** print_value: the text of v behind what is already done, or failure exactly when it cannot fit. */
    method PrintValue(v: Json) returns (ok: bool)
      requires Valid()
      modifies this`buffer, this`offset, this`depth, buffer
      ensures buffer == old(buffer) || (!noalloc && fresh(buffer))
      ensures ok <==> NumbersFit(v) && old(offset) + |Text(v, format, old(depth))| + 2 <= old(Capacity())
      ensures Capacity() == old(Capacity())
      ensures ok ==> Valid() && depth == old(depth)
      ensures ok ==> Holds(old(Done()), Text(v, format, old(depth)))
      decreases v, 0
    {
      hide Quoted, ItemsText, MembersText, Open, Close, ItemsNumbersFit, MembersNumbersFit;
      match v
      case Null =>
        ok := PrintWord(NULL_WORD);
      case False =>
        ok := PrintWord(FALSE_WORD);
      case True =>
        ok := PrintWord(TRUE_WORD);
      case Number(text) =>
        ok := PrintNumber(text);
      case String(chars) =>
        ok := PrintString(chars);
      case Array(items) =>
        ok := PrintArray(items);
      case Object(members) =>
        ok := PrintObject(members);
    }

    /** A literal name, copied with its NUL; offset stays put. */
    method PrintWord(word: CString) returns (ok: bool)
      requires Valid()
      modifies this`buffer, buffer
      ensures buffer == old(buffer) || (!noalloc && fresh(buffer))
      ensures ok <==> offset + |word| + 2 <= old(Capacity())
      ensures Valid() && Capacity() == old(Capacity())
      ensures ok ==> Holds(old(Done()), word)
    {
      ok := Ensure(|word| + 1);
      if ok {
        CopyString(word);
      }
    }

    /** One array element and the separator after it. */
    method PrintItem(v: Json, more: bool) returns (ok: bool)
      requires Valid()
      modifies this`buffer, this`offset, this`depth, buffer
      ensures buffer == old(buffer) || (!noalloc && fresh(buffer))
      ensures Capacity() == old(Capacity())
      ensures ok <==> NumbersFit(v) && old(offset) + |Text(v, format, old(depth)) + ItemGap(format, more)| + 2 <= old(Capacity())
      ensures ok ==> Valid() && buffer.Length > 0 && depth == old(depth)
      ensures ok ==> Done() == old(Done()) + (Text(v, format, old(depth)) + ItemGap(format, more))
      decreases v, 1
    {
      hide Text, NumbersFit;
      ghost var prefix, text := Done(), Text(v, format, depth);
      ok := PrintValue(v);
      if !ok {
        return;
      }
      UpdateOffset(prefix, text);
      Regroup(prefix, text, ItemGap(format, more));
      assert !more ==> ItemGap(format, more) == [] && Done() + [] == Done();
      hide ItemGap;
      if more {
        ok := PrintPunctuation(ItemGap(format, more));
      }
    }

    /** The elements of an array, separated. */
    method PrintItems(items: seq<Json>) returns (ok: bool)
      requires Valid() && buffer.Length > 0
      modifies this`buffer, this`offset, this`depth, buffer
      ensures buffer == old(buffer) || (!noalloc && fresh(buffer))
      ensures Capacity() == old(Capacity())
      ensures ok ==> ItemsNumbersFit(items)
      ensures !ok && ItemsNumbersFit(items) ==> old(offset) + |ItemsText(items, format, old(depth))| + 2 > old(Capacity())
      ensures ok ==> Valid() && buffer.Length > 0 && depth == old(depth)
      ensures ok ==> Done() == old(Done()) + ItemsText(items, format, old(depth))
      decreases items, 0
    {
      hide ItemsText, ItemsNumbersFit, Text, NumbersFit;
      ghost var whole := Done() + ItemsText(items, format, depth);
      assert items[0..] == items;
      NoItems(format, depth);
      var i := 0;
      while i < |items|
        invariant 0 <= i <= |items| && depth == old(depth)
        invariant buffer == old(buffer) || (!noalloc && fresh(buffer))
        invariant Valid() && buffer.Length > 0 && Capacity() == old(Capacity())
        invariant Done() + ItemsText(items[i..], format, depth) == whole
        invariant ItemsNumbersFit(items[i..]) == ItemsNumbersFit(items)
      {
        ItemStep(Done(), items, i, format, depth);
        ok := PrintItem(items[i], |items| - i > 1);
        if !ok {
          return;
        }
        i := i + 1;
      }
      assert items[i..] == [];
      assert Done() == Done() + [];
      ok := true;
    }

    static lemma NoItems(fmt: bool, depth: nat)
      ensures ItemsText([], fmt, depth) == [] && ItemsNumbersFit([])
    {
    }

    static lemma ItemStep(done: bytes, items: seq<Json>, i: nat, fmt: bool, depth: nat)
      requires i < |items|
      ensures var step := Text(items[i], fmt, depth) + ItemGap(fmt, |items| - i > 1);
              && done + ItemsText(items[i..], fmt, depth) == done + step + ItemsText(items[i + 1..], fmt, depth)
              && |step| <= |ItemsText(items[i..], fmt, depth)|
      ensures ItemsNumbersFit(items[i..]) <==> NumbersFit(items[i]) && ItemsNumbersFit(items[i + 1..])
    {
      assert items[i..][1..] == items[i + 1..];
      var step, rest := Text(items[i], fmt, depth) + ItemGap(fmt, |items| - i > 1), ItemsText(items[i + 1..], fmt, depth);
      assert ItemsText(items[i..], fmt, depth) == step + rest by {
        hide Text, ItemGap;
      }
      assert ItemsNumbersFit(items[i..]) <==> NumbersFit(items[i]) && ItemsNumbersFit(items[i + 1..]) by {
        hide NumbersFit;
      }
      hide Text, ItemGap, ItemsText, NumbersFit, ItemsNumbersFit;
      Regroup(done, step, rest);
    }

    method PrintArray(items: seq<Json>) returns (ok: bool)
      requires Valid()
      modifies this`buffer, this`offset, this`depth, buffer
      ensures buffer == old(buffer) || (!noalloc && fresh(buffer))
      ensures ok <==> ItemsNumbersFit(items) && old(offset) + |Text(Array(items), format, old(depth))| + 2 <= old(Capacity())
      ensures Capacity() == old(Capacity())
      ensures ok ==> Valid() && depth == old(depth)
      ensures ok ==> Holds(old(Done()), Text(Array(items), format, old(depth)))
      decreases items, 2
    {
      ArrayText(items, format, depth);
      hide Text, ItemsText, ItemsNumbersFit;
      ghost var prefix, text := Done(), Text(Array(items), format, depth);
      ghost var rest := ItemsText(items, format, depth + 1) + [RBRACKET];
      Regroup(prefix, [LBRACKET], rest);
      ok := PrintOpenBracket();
      if !ok {
        return;
      }
      ok := PrintArrayRest(items);
      if ok {
        HoldsMore(prefix + [LBRACKET], rest, prefix, text);
      }
    }

    static lemma ArrayText(items: seq<Json>, fmt: bool, depth: nat)
      ensures Text(Array(items), fmt, depth) == [LBRACKET] + (ItemsText(items, fmt, depth + 1) + [RBRACKET])
    {
    }

    static lemma ObjectText(members: seq<Member>, fmt: bool, depth: nat)
      ensures Text(Object(members), fmt, depth) == Open(fmt) + (MembersText(members, fmt, depth + 1) + Close(fmt, depth))
    {
    }

    method PrintOpenBracket() returns (ok: bool)
      requires Valid()
      modifies this`buffer, this`offset, this`depth, buffer
      ensures buffer == old(buffer) || (!noalloc && fresh(buffer))
      ensures Capacity() == old(Capacity())
      ensures ok <==> old(offset) + 2 <= old(Capacity())
      ensures ok ==> Valid() && buffer.Length > 0 && depth == old(depth) + 1
      ensures ok ==> Done() == old(Done()) + [LBRACKET]
    {
      ok := Ensure(1);
      if ok {
        Put(offset, LBRACKET);
        offset, depth := offset + 1, depth + 1;
      }
    }

    /** The elements and the closing bracket, back at the outer nesting depth; offset stays before the bracket. */
    method PrintArrayRest(items: seq<Json>) returns (ok: bool)
      requires Valid() && buffer.Length > 0 && depth > 0
      modifies this`buffer, this`offset, this`depth, buffer
      ensures buffer == old(buffer) || (!noalloc && fresh(buffer))
      ensures ok <==> ItemsNumbersFit(items) && old(offset) + |ItemsText(items, format, old(depth)) + [RBRACKET]| + 2 <= old(Capacity())
      ensures Capacity() == old(Capacity())
      ensures ok ==> Valid() && depth == old(depth) - 1
      ensures ok ==> Holds(old(Done()), ItemsText(items, format, old(depth)) + [RBRACKET])
      decreases items, 1
    {
      hide ItemsText, ItemsNumbersFit;
      ghost var prefix, inner := Done(), ItemsText(items, format, depth);
      ok := PrintItems(items);
      if !ok {
        return;
      }
      ok := PrintWord([RBRACKET]);
      if ok {
        Regroup(prefix, inner, [RBRACKET]);
        HoldsMore(prefix + inner, [RBRACKET], prefix, inner + [RBRACKET]);
        depth := depth - 1;
      }
    }

    /** The final reallocation: a string of exactly the text and its NUL. */
    method Trimmed() returns (result: array<byte>)
      requires Valid() && offset < buffer.Length && buffer[offset] == NUL
      ensures fresh(result) && result[..] == Done() + [NUL]
    {
      result := new byte[offset + 1];
      forall i | 0 <= i < result.Length {
        result[i] := buffer[i];
      }
    }

    static lemma Regroup(a: bytes, b: CString, c: CString)
      ensures a + b + c == a + (b + c)
    {
    }

    /** Text already behind offset may be counted to the prefix or to the text. */
    lemma HoldsMore(prefix: bytes, text: CString, prefix': bytes, text': CString)
      requires Holds(prefix, text) && prefix + text == prefix' + text' && |text| <= |text'|
      ensures Holds(prefix', text')
    {
    }

    /** One object member with indentation, separator and line end. */
    method PrintMember(m: Member, more: bool) returns (ok: bool)
      requires Valid() && buffer.Length > 0
      modifies this`buffer, this`offset, this`depth, buffer
      ensures buffer == old(buffer) || (!noalloc && fresh(buffer))
      ensures Capacity() == old(Capacity())
      ensures ok ==> NumbersFit(m.value)
      ensures !ok && NumbersFit(m.value) ==> old(offset) + |MemberText(m, format, old(depth)) + MemberGap(format, more)| + 2 > old(Capacity())
      ensures ok ==> Valid() && buffer.Length > 0 && depth == old(depth)
      ensures ok ==> Done() == old(Done()) + (MemberText(m, format, old(depth)) + MemberGap(format, more))
      decreases m, 1
    {
      MemberParts(Done(), m, format, depth, more);
      ok := PrintIndent();
      if !ok {
        return;
      }
      ok := PrintKey(m.key);
      if !ok {
        return;
      }
      ok := PrintMemberValue(m.value, more);
    }

    /** The value of a member and what follows it on the line. */
    method PrintMemberValue(v: Json, more: bool) returns (ok: bool)
      requires Valid()
      modifies this`buffer, this`offset, this`depth, buffer
      ensures buffer == old(buffer) || (!noalloc && fresh(buffer))
      ensures Capacity() == old(Capacity())
      ensures ok ==> NumbersFit(v)
      ensures !ok && NumbersFit(v) ==> old(offset) + |Text(v, format, old(depth)) + MemberGap(format, more)| + 2 > old(Capacity())
      ensures ok ==> Valid() && buffer.Length > 0 && depth == old(depth)
      ensures ok ==> Done() == old(Done()) + (Text(v, format, old(depth)) + MemberGap(format, more))
      decreases v, 1
    {
      hide Text, NumbersFit, MemberGap;
      ghost var prefix, text := Done(), Text(v, format, depth);
      ok := PrintValue(v);
      if !ok {
        return;
      }
      UpdateOffset(prefix, text);
      Regroup(prefix, text, MemberGap(format, more));
      ok := PrintPunctuation(MemberGap(format, more));
    }

    static lemma MemberParts(prefix: bytes, m: Member, fmt: bool, depth: nat, more: bool)
      ensures var tail := Text(m.value, fmt, depth) + MemberGap(fmt, more);
              && prefix + Indent(fmt, depth) + (Quoted(m.key) + Colon(fmt)) + tail
                 == prefix + (MemberText(m, fmt, depth) + MemberGap(fmt, more))
              && |MemberText(m, fmt, depth) + MemberGap(fmt, more)|
                 == |Indent(fmt, depth)| + |Quoted(m.key) + Colon(fmt)| + |tail|
    {
      hide Indent, Quoted, Colon, Text, MemberGap;
      Associate(prefix, Indent(fmt, depth), Quoted(m.key), Colon(fmt), Text(m.value, fmt, depth), MemberGap(fmt, more));
    }

    static lemma Associate(p: bytes, a: CString, b: CString, c: CString, d: CString, e: CString)
      ensures p + a + (b + c) + (d + e) == p + (a + b + c + d + e)
    {
    }

    /** The members of an object. */
    method PrintMembers(members: seq<Member>) returns (ok: bool)
      requires Valid() && buffer.Length > 0
      modifies this`buffer, this`offset, this`depth, buffer
      ensures buffer == old(buffer) || (!noalloc && fresh(buffer))
      ensures Capacity() == old(Capacity())
      ensures ok ==> MembersNumbersFit(members)
      ensures !ok && MembersNumbersFit(members) ==> old(offset) + |MembersText(members, format, old(depth))| + 2 > old(Capacity())
      ensures ok ==> Valid() && buffer.Length > 0 && depth == old(depth)
      ensures ok ==> Done() == old(Done()) + MembersText(members, format, old(depth))
      decreases members, 0
    {
      hide MembersText, MembersNumbersFit, MemberText, NumbersFit;
      ghost var whole := Done() + MembersText(members, format, depth);
      assert members[0..] == members;
      NoMembers(format, depth);
      var i := 0;
      while i < |members|
        invariant 0 <= i <= |members| && depth == old(depth)
        invariant buffer == old(buffer) || (!noalloc && fresh(buffer))
        invariant Valid() && buffer.Length > 0 && Capacity() == old(Capacity())
        invariant Done() + MembersText(members[i..], format, depth) == whole
        invariant MembersNumbersFit(members[i..]) == MembersNumbersFit(members)
      {
        MemberStep(Done(), members, i, format, depth);
        ok := PrintMember(members[i], |members| - i > 1);
        if !ok {
          return;
        }
        i := i + 1;
      }
      assert members[i..] == [];
      assert Done() == Done() + [];
      ok := true;
    }

    static lemma NoMembers(fmt: bool, depth: nat)
      ensures MembersText([], fmt, depth) == [] && MembersNumbersFit([])
    {
    }

    static lemma MemberStep(done: bytes, members: seq<Member>, i: nat, fmt: bool, depth: nat)
      requires i < |members|
      ensures var step := MemberText(members[i], fmt, depth) + MemberGap(fmt, |members| - i > 1);
              && done + MembersText(members[i..], fmt, depth) == done + step + MembersText(members[i + 1..], fmt, depth)
              && |step| <= |MembersText(members[i..], fmt, depth)|
      ensures MembersNumbersFit(members[i..]) <==> NumbersFit(members[i].value) && MembersNumbersFit(members[i + 1..])
    {
      assert members[i..][1..] == members[i + 1..];
      var step := MemberText(members[i], fmt, depth) + MemberGap(fmt, |members| - i > 1);
      var rest := MembersText(members[i + 1..], fmt, depth);
      assert MembersText(members[i..], fmt, depth) == step + rest by {
        hide MemberText, MemberGap;
      }
      assert MembersNumbersFit(members[i..]) <==> NumbersFit(members[i].value) && MembersNumbersFit(members[i + 1..]) by {
        hide NumbersFit;
      }
      hide MemberText, MemberGap, MembersText, NumbersFit, MembersNumbersFit;
      Regroup(done, step, rest);
    }

    method PrintObject(members: seq<Member>) returns (ok: bool)
      requires Valid()
      modifies this`buffer, this`offset, this`depth, buffer
      ensures buffer == old(buffer) || (!noalloc && fresh(buffer))
      ensures ok <==> MembersNumbersFit(members) && old(offset) + |Text(Object(members), format, old(depth))| + 2 <= old(Capacity())
      ensures Capacity() == old(Capacity())
      ensures ok ==> Valid() && depth == old(depth)
      ensures ok ==> Holds(old(Done()), Text(Object(members), format, old(depth)))
      decreases members, 2
    {
      ObjectText(members, format, depth);
      hide Text, Open, MembersText, Close, MembersNumbersFit;
      ghost var prefix, text := Done(), Text(Object(members), format, depth);
      ghost var rest := MembersText(members, format, depth + 1) + Close(format, depth);
      Regroup(prefix, Open(format), rest);
      ok := PrintOpenBrace();
      if !ok {
        return;
      }
      ok := PrintObjectRest(members);
      if ok {
        HoldsMore(prefix + Open(format), rest, prefix, text);
      }
    }

    method PrintOpenBrace() returns (ok: bool)
      requires Valid()
      modifies this`buffer, this`offset, this`depth, buffer
      ensures buffer == old(buffer) || (!noalloc && fresh(buffer))
      ensures Capacity() == old(Capacity())
      ensures ok <==> old(offset) + |Open(format)| + 2 <= old(Capacity())
      ensures ok ==> Valid() && buffer.Length > 0 && depth == old(depth) + 1
      ensures ok ==> Done() == old(Done()) + Open(format)
    {
      ok := PrintPunctuation(Open(format));
      if ok {
        depth := depth + 1;
      }
    }

    /** The members and the closing line, back at the outer nesting depth; offset stays before that line. */
    method PrintObjectRest(members: seq<Member>) returns (ok: bool)
      requires Valid() && buffer.Length > 0 && depth > 0
      modifies this`buffer, this`offset, this`depth, buffer
      ensures buffer == old(buffer) || (!noalloc && fresh(buffer))
      ensures ok <==> MembersNumbersFit(members) && old(offset) + |MembersText(members, format, old(depth)) + Close(format, old(depth) - 1)| + 2 <= old(Capacity())
      ensures Capacity() == old(Capacity())
      ensures ok ==> Valid() && depth == old(depth) - 1
      ensures ok ==> Holds(old(Done()), MembersText(members, format, old(depth)) + Close(format, old(depth) - 1))
      decreases members, 1
    {
      hide MembersText, MembersNumbersFit, Close;
      ghost var prefix, inner, close := Done(), MembersText(members, format, depth), Close(format, depth - 1);
      ok := PrintMembers(members);
      if !ok {
        return;
      }
      ok := PrintClose();
      if ok {
        Regroup(prefix, inner, close);
        HoldsMore(prefix + inner, close, prefix, inner + close);
        depth := depth - 1;
      }
    }

    /** The closing brace of an object, one level further out than its members; offset stays put. */
    method PrintClose() returns (ok: bool)
      requires Valid() && depth > 0
      modifies this`buffer, buffer
      ensures buffer == old(buffer) || (!noalloc && fresh(buffer))
      ensures ok <==> offset + |Close(format, depth - 1)| + 2 <= old(Capacity())
      ensures Valid() && Capacity() == old(Capacity())
      ensures ok ==> Holds(old(Done()), Close(format, depth - 1))
    {
      hide Close, Indent;
      ghost var prefix := Done();
      CloseParts(prefix, format, depth - 1);
      ok := Ensure(if format then depth + 1 else 2);
      if !ok {
        return;
      }
      var to := WriteIndent(depth - 1);
      Put(to, RBRACE);
      Terminate(to + 1);
    }

    /** Tabs behind offset, if printing formatted. */
    method WriteIndent(level: nat) returns (to: nat)
      requires offset + |Indent(format, level)| <= buffer.Length
      modifies buffer
      ensures to == offset + |Indent(format, level)| && buffer[..to] == old(buffer[..offset]) + Indent(format, level)
    {
      to := offset;
      if format {
        WriteTabs(to, level);
        to := to + level;
      }
    }

    static lemma CloseParts(prefix: bytes, fmt: bool, level: nat)
      ensures |Close(fmt, level)| == |Indent(fmt, level)| + 1 && |Indent(fmt, level)| == (if fmt then level else 0)
      ensures prefix + Indent(fmt, level) + [RBRACE] == prefix + Close(fmt, level)
    {
      Regroup(prefix, Indent(fmt, level), [RBRACE]);
    }
  }

  // ---- entry points ----

  const DEFAULT_BUFFER_SIZE := 256

  /** cJSON_Print and cJSON_PrintUnformatted: a fresh string, trimmed to the text and its NUL. */
  method Print(item: Json, format: bool) returns (printed: Option<array<byte>>)
    ensures printed.Some? <==> NumbersFit(item) && |Text(item, format, 0)| + 2 <= 0x7fff_ffff
    ensures printed.Some? ==> fresh(printed.value) && printed.value[..] == Text(item, format, 0) + [NUL]
  {
    hide Text, NumbersFit;
    var p := new PrintBuffer(DEFAULT_BUFFER_SIZE, false, format);
    var ok := p.PrintValue(item);
    if !ok {
      return None;
    }
    p.UpdateOffset([], Text(item, format, 0));
    var result := p.Trimmed();
    return Some(result);
  }

  /** cJSON_PrintBuffered: the caller's guess of the size changes nothing but the slack behind the NUL. */
  method PrintBuffered(item: Json, prebuffer: nat, format: bool) returns (printed: Option<array<byte>>)
    requires prebuffer <= INT_MAX
    ensures printed.Some? <==> NumbersFit(item) && |Text(item, format, 0)| + 2 <= 0x7fff_ffff
    ensures printed.Some? ==> fresh(printed.value) && |Text(item, format, 0)| < printed.value.Length
    ensures printed.Some? ==> printed.value[..|Text(item, format, 0)| + 1] == Text(item, format, 0) + [NUL]
  {
    hide Text, NumbersFit;
    var p := new PrintBuffer(prebuffer, false, format);
    var ok := p.PrintValue(item);
    if !ok {
      return None;
    }
    ghost var n := |Text(item, format, 0)|;
    assert p.buffer[..n + 1] == p.buffer[..n] + [p.buffer[n]];
    return Some(p.buffer);
  }

  /** cJSON_PrintPreallocated: works exactly when the buffer is two bytes longer than the text. */
  method PrintPreallocated(item: Json, buf: array<byte>, format: bool) returns (ok: bool)
    requires buf.Length <= INT_MAX
    modifies buf
    ensures ok <==> NumbersFit(item) && |Text(item, format, 0)| + 2 <= buf.Length
    ensures ok ==> buf[..|Text(item, format, 0)| + 1] == Text(item, format, 0) + [NUL]
  {
    hide Text, NumbersFit;
    var p := new PrintBuffer.Preallocated(buf, format);
    ok := p.PrintValue(item);
    if ok {
      ghost var n := |Text(item, format, 0)|;
      assert p.buffer[..n + 1] == p.buffer[..n] + [p.buffer[n]];
    }
  }
}
