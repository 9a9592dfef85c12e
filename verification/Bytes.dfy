/** Bytes, C strings and the ASCII codes the JSON code compares against. */
module Bytes {
  type byte = x: int | 0 <= x < 256
  type bytes = seq<byte>

  /** A byte that can stand inside a C string: anything but the terminator. */
  type nonzero = x: int | 1 <= x < 256 witness 1

  /** The bytes of a C string, without its terminator. */
  type CString = seq<nonzero>

  datatype Option<+T> = None | Some(value: T)

  const NUL: byte := 0
  const TAB: nonzero := 9
  const NEWLINE: nonzero := 10
  const RETURN: nonzero := 13
  const SPACE: nonzero := 32
  const QUOTE: nonzero := 34
  const STAR: nonzero := 42
  const PLUS: nonzero := 43
  const COMMA: nonzero := 44
  const MINUS: nonzero := 45
  const DOT: nonzero := 46
  const SLASH: nonzero := 47
  const COLON: nonzero := 58
  const LBRACKET: nonzero := 91
  const BACKSLASH: nonzero := 92
  const RBRACKET: nonzero := 93
  const LBRACE: nonzero := 123
  const RBRACE: nonzero := 125

  const NULL_WORD: CString := [110, 117, 108, 108]
  const FALSE_WORD: CString := [102, 97, 108, 115, 101]
  const TRUE_WORD: CString := [116, 114, 117, 101]

  /** What a C string function sees of a buffer: the bytes before the first NUL. */
  function CStr(s: bytes): (r: CString)
    ensures |r| <= |s| && s[..|r|] == r
    ensures |r| < |s| ==> s[|r|] == NUL
  {
    if s == [] || s[0] == NUL then [] else [s[0]] + CStr(s[1..])
  }

  lemma {:induction false} CStrOfString(s: CString)
    ensures CStr(s) == s
  {
    if s != [] {
      CStrOfString(s[1..]);
    }
  }
}
