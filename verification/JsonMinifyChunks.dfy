/** What minifying drops and keeps, said by cutting the text into pieces: whitespace and comments go, string literals
    and everything else stay. */
module JsonMinifyChunks {
  import opened Bytes
  import opened JsonString
  import opened JsonMinify

  datatype Chunk =
    | Blank(c: byte)
    | LineComment(text: bytes)    // behind the two slashes
    | BlockComment(text: bytes)   // between the slash and the closing star
    | Quoted(text: bytes)         // between the quotes
    | Other(c: byte)

  function SpellChunk(chunk: Chunk): bytes {
    match chunk
    case Blank(c) => [c]
    case LineComment(text) => ['/' as int, '/' as int] + text
    case BlockComment(text) => ['/' as int] + text + ['*' as int, '/' as int]
    case Quoted(text) => ['\"' as int] + text + ['\"' as int]
    case Other(c) => [c]
  }

  function KeptOf(chunk: Chunk): bytes {
    match chunk
    case Quoted(_) | Other(_) => SpellChunk(chunk)
    case _ => []
  }

  function Spell(chunks: seq<Chunk>): bytes {
    if chunks == [] then [] else SpellChunk(chunks[0]) + Spell(chunks[1..])
  }

  function Kept(chunks: seq<Chunk>): bytes {
    if chunks == [] then [] else KeptOf(chunks[0]) + Kept(chunks[1..])
  }

  /** What can stand between quotes: every quote and backslash in it has a backslash in front. */
  predicate Body(text: bytes) {
    text != [] ==>
      if text[0] == '\\' as int then |text| >= 2 && Body(text[2..])
      else text[0] != '\"' as int && Body(text[1..])
  }

  /** The piece is one of its kind, in front of these bytes.  The star that opens a block comment may close it. */
  predicate Fits(chunk: Chunk, rest: bytes) {
    match chunk
    case Blank(c) => c as char in {' ', '\t', '\r', '\n'}
    case LineComment(text) => '\n' as int !in text && (rest == [] || rest[0] == '\n' as int)
    case BlockComment(text) =>
      && (text != [] ==> text[0] == '*' as int)
      && forall k :: 0 <= k < |text| ==> !(text[k] == '*' as int && (text + ['*' as int])[k + 1] == '/' as int)
    case Quoted(text) => Body(text)
    case Other(c) =>
      && c as char !in {' ', '\t', '\r', '\n', '\"'}
      && (c == '/' as int && rest != [] ==> rest[0] != '/' as int && rest[0] != '*' as int)
  }

  predicate Cut(chunks: seq<Chunk>) {
    chunks != [] ==> Fits(chunks[0], Spell(chunks[1..])) && Cut(chunks[1..])
  }

  // ---- from the pieces to the minified text ----

  lemma ChunkStands(s: bytes, i: nat, chunk: bytes, rest: bytes)
    requires i <= |s| && s[i..] == chunk + rest
    ensures var k := i + |chunk|;
            && k <= |s| && s[i..k] == chunk && s[k..] == rest
            && (forall m :: 0 <= m < |chunk| ==> s[i + m] == chunk[m]) && (rest != [] ==> k < |s| && s[k] == rest[0])
  {
    var k := i + |chunk|;
    assert s[i..k] == s[i..][..|chunk|] && s[k..] == s[i..][|chunk|..];
    forall m | 0 <= m < |chunk| ensures s[i + m] == chunk[m] {
      assert s[i + m] == s[i..][m];
    }
    if rest != [] {
      assert s[k] == s[i..][|chunk|];
    }
  }

  lemma {:induction false} LineEndIs(s: bytes, i: nat, k: nat)
    requires i <= k <= |s| && (k == |s| || s[k] == NEWLINE) && forall m :: i <= m < k ==> s[m] != NEWLINE
    ensures LineEnd(s, i) == k
    decreases k - i
  {
    if i < k {
      LineEndIs(s, i + 1, k);
    }
  }

  lemma {:induction false} CommentEndIs(s: bytes, i: nat, k: nat)
    requires i + 2 <= k <= |s| && s[k - 2] == STAR && s[k - 1] == SLASH
    requires forall m :: i <= m < k - 2 ==> !(s[m] == STAR && s[m + 1] == SLASH)
    ensures CommentEnd(s, i) == Some(k)
    decreases k - i
  {
    if i + 2 < k {
      CommentEndIs(s, i + 1, k);
    }
  }

  lemma {:induction false} ScanIs(s: bytes, p: nat, text: bytes)
    requires p + |text| < |s| && s[p..p + |text|] == text && s[p + |text|] == QUOTE && Body(text)
    ensures Scan(s, p) == Some(p + |text|)
    decreases |text|
  {
    if text != [] {
      assert s[p] == text[0];
      if text[0] == BACKSLASH {
        assert s[p + 2..p + |text|] == text[2..];
        ScanIs(s, p + 2, text[2..]);
      } else {
        assert s[p + 1..p + |text|] == text[1..];
        ScanIs(s, p + 1, text[1..]);
      }
    }
  }

  lemma CommentStands(s: bytes, i: nat, text: bytes)
    requires var all := [SLASH] + text + [STAR, SLASH]; i + |all| <= |s| && forall m :: 0 <= m < |all| ==> s[i + m] == all[m]
    requires Fits(BlockComment(text), [])
    ensures s[i] == SLASH && s[i + 1] == STAR && CommentEnd(s, i) == Some(i + |text| + 3)
  {
    var all, k := [SLASH] + text + [STAR, SLASH], i + |text| + 3;
    assert s[i + 0] == all[0] && s[i + 1] == all[1];
    assert s[k - 2] == all[|text| + 1] && s[k - 1] == all[|text| + 2];
    forall m | i <= m < k - 2 ensures !(s[m] == STAR && s[m + 1] == SLASH) {
      assert s[m] == all[m - i] && s[m + 1] == all[m - i + 1];
      if m > i {
        assert all[m - i] == text[m - i - 1] && all[m - i + 1] == (text + [STAR])[m - i];
      }
    }
    CommentEndIs(s, i, k);
  }

  lemma SingleMinified(s: bytes, i: nat, c: byte, rest: bytes)
    requires i < |s| && s[i] == c && s[i + 1..] == rest
    ensures Fits(Blank(c), rest) ==> Minified(s, i) == Minified(s, i + 1)
    ensures Fits(Other(c), rest) ==> Minified(s, i) == Behind([c], Minified(s, i + 1))
  {
    hide Scan, LineEnd, CommentEnd;
    if i + 1 < |s| {
      assert rest[0] == s[i + 1];
    }
  }

  lemma LineMinified(s: bytes, i: nat, k: nat)
    requires i + 1 < |s| && s[i] == SLASH && s[i + 1] == SLASH && LineEnd(s, i) == k && k > i
    ensures Minified(s, i) == Minified(s, k)
  {
    hide Scan, LineEnd, CommentEnd;
  }

  lemma CommentMinified(s: bytes, i: nat, k: nat)
    requires i + 1 < |s| && s[i] == SLASH && s[i + 1] == STAR && CommentEnd(s, i) == Some(k)
    ensures Minified(s, i) == Minified(s, k)
  {
    hide Scan, LineEnd, CommentEnd;
  }

  lemma QuotedMinified(s: bytes, i: nat, k: nat)
    requires i < |s| && s[i] == QUOTE && Scan(s, i + 1) == Some(k - 1) && k > 0
    ensures k <= |s| && Minified(s, i) == Behind(s[i..k], Minified(s, k))
  {
    hide LineEnd, CommentEnd;
  }

  /** One piece is dropped or kept. */
  lemma ChunkMinified(s: bytes, i: nat, chunk: Chunk, rest: bytes)
    requires i <= |s| && s[i..] == SpellChunk(chunk) + rest && Fits(chunk, rest)
    ensures i + |SpellChunk(chunk)| <= |s|
    ensures Minified(s, i) == Behind(KeptOf(chunk), Minified(s, i + |SpellChunk(chunk)|))
  {
    hide Minified, LineEnd, CommentEnd, Scan, Behind, Body;
    var text, k := SpellChunk(chunk), i + |SpellChunk(chunk)|;
    ChunkStands(s, i, text, rest);
    BehindNothing(Minified(s, k));
    assert s[i + 0] == text[0];
    match chunk {
      case Blank(c) => SingleMinified(s, i, c, rest);
      case LineComment(_) => LineStands(s, i, chunk, rest);
      case BlockComment(inside) =>
        CommentStands(s, i, inside);
        CommentMinified(s, i, k);
      case Quoted(inside) =>
        assert s[i..k][1..|inside| + 1] == inside;
        assert s[i + 1..k - 1] == inside;
        assert s[i + (|inside| + 1)] == text[|inside| + 1];
        ScanIs(s, i + 1, inside);
        QuotedMinified(s, i, k);
      case Other(c) => SingleMinified(s, i, c, rest);
    }
  }

  lemma LineStands(s: bytes, i: nat, chunk: Chunk, rest: bytes)
    requires i <= |s| && s[i..] == SpellChunk(chunk) + rest && chunk.LineComment? && Fits(chunk, rest)
    ensures i + |SpellChunk(chunk)| <= |s|
    ensures Minified(s, i) == Minified(s, i + |SpellChunk(chunk)|)
  {
    hide Minified;
    var text, k := SpellChunk(chunk), i + |SpellChunk(chunk)|;
    ChunkStands(s, i, text, rest);
    forall m | i <= m < k ensures s[m] != NEWLINE {
      assert s[i + (m - i)] == text[m - i];
      assert m - i >= 2 ==> text[m - i] == chunk.text[m - i - 2];
    }
    assert s[i + 0] == text[0] && s[i + 1] == text[1];
    LineEndIs(s, i, k);
    LineMinified(s, i, k);
  }

  lemma {:induction false} ChunksMinified(s: bytes, i: nat, chunks: seq<Chunk>)
    requires i <= |s| && s[i..] == Spell(chunks) && Cut(chunks)
    ensures Minified(s, i) == Some(Kept(chunks))
    decreases |chunks|
  {
    hide Minified, Fits, SpellChunk, KeptOf;
    if chunks == [] {
      NothingLeft(s, i);
    } else {
      ChunkMinified(s, i, chunks[0], Spell(chunks[1..]));
      ChunkStands(s, i, SpellChunk(chunks[0]), Spell(chunks[1..]));
      ChunksMinified(s, i + |SpellChunk(chunks[0])|, chunks[1..]);
    }
  }

  lemma NothingLeft(s: bytes, i: nat)
    requires i <= |s| && s[i..] == []
    ensures Minified(s, i) == Some([])
  {
  }

  // ---- and back ----

  lemma {:induction false} LineEndStops(s: bytes, i: nat)
    requires i <= |s|
    ensures var k := LineEnd(s, i); (k == |s| || s[k] == NEWLINE) && forall m :: i <= m < k ==> s[m] != NEWLINE
    decreases |s| - i
  {
    if i < |s| && s[i] != NEWLINE {
      LineEndStops(s, i + 1);
    }
  }

  lemma {:induction false} CommentEndStops(s: bytes, i: nat)
    requires CommentEnd(s, i).Some?
    ensures var k := CommentEnd(s, i).value;
            && i + 2 <= k <= |s| && s[k - 2] == STAR && s[k - 1] == SLASH
            && forall m :: i <= m < k - 2 ==> !(s[m] == STAR && s[m + 1] == SLASH)
    decreases |s| - i
  {
    if !(s[i] == STAR && s[i + 1] == SLASH) {
      CommentEndStops(s, i + 1);
    }
  }

  lemma {:induction false} ScanBody(s: bytes, p: nat)
    requires Scan(s, p).Some?
    ensures p <= Scan(s, p).value < |s| && Body(s[p..Scan(s, p).value])
    decreases |s| - p
  {
    var e := Scan(s, p).value;
    if s[p] == BACKSLASH {
      ScanBody(s, p + 2);
      assert s[p..e][2..] == s[p + 2..e];
    } else if s[p] != QUOTE {
      ScanBody(s, p + 1);
      assert s[p..e][1..] == s[p + 1..e];
    }
  }

  lemma CommentChunk(s: bytes, i: nat)
    requires i + 1 < |s| && s[i] == SLASH && s[i + 1] == STAR && CommentEnd(s, i).Some?
    ensures var k := CommentEnd(s, i).value;
            && i + 3 <= k <= |s| && Fits(BlockComment(s[i + 1..k - 2]), [])
            && s[i..k] == SpellChunk(BlockComment(s[i + 1..k - 2]))
  {
    CommentEndStops(s, i);
    var k := CommentEnd(s, i).value;
    var text := s[i + 1..k - 2];
    assert s[i..k] == [SLASH] + text + [STAR, SLASH];
    forall m | 0 <= m < |text| ensures !(text[m] == STAR && (text + [STAR])[m + 1] == SLASH) {
      assert text[m] == s[i + 1 + m] && (text + [STAR])[m + 1] == s[i + 2 + m];
    }
  }

  /** The first piece of a text that can be minified. */
  lemma FirstChunk(s: bytes, i: nat) returns (chunk: Chunk, k: nat)
    requires i < |s| && Minified(s, i).Some?
    ensures i < k <= |s| && s[i..k] == SpellChunk(chunk) && Fits(chunk, s[k..])
    ensures Minified(s, k).Some?
  {
    hide Minified, LineEnd, CommentEnd, Scan, Body;
    if Space(s[i]) {
      chunk, k := Blank(s[i]), i + 1;
      SingleMinified(s, i, s[i], s[i + 1..]);
    } else if s[i] == SLASH && i + 1 < |s| && s[i + 1] == SLASH {
      chunk, k := LineChunk(s, i);
    } else if s[i] == SLASH && i + 1 < |s| && s[i + 1] == STAR {
      chunk, k := BlockChunk(s, i);
    } else if s[i] == QUOTE {
      chunk, k := QuotedChunk(s, i);
    } else {
      chunk, k := Other(s[i]), i + 1;
      SingleMinified(s, i, s[i], s[i + 1..]);
    }
  }

  lemma LineChunk(s: bytes, i: nat) returns (chunk: Chunk, k: nat)
    requires i + 1 < |s| && s[i] == SLASH && s[i + 1] == SLASH && Minified(s, i).Some?
    ensures i < k <= |s| && s[i..k] == SpellChunk(chunk) && Fits(chunk, s[k..]) && Minified(s, k).Some?
  {
    hide Minified, LineEnd;
    LineEndStops(s, i);
    k := LineEnd(s, i);
    LineMinified(s, i, k);
    chunk := LineComment(s[i + 2..k]);
    assert s[i..k] == [SLASH, SLASH] + s[i + 2..k];
  }

  lemma BlockChunk(s: bytes, i: nat) returns (chunk: Chunk, k: nat)
    requires i + 1 < |s| && s[i] == SLASH && s[i + 1] == STAR && Minified(s, i).Some?
    ensures i < k <= |s| && s[i..k] == SpellChunk(chunk) && Fits(chunk, s[k..]) && Minified(s, k).Some?
  {
    hide Minified, CommentEnd, Fits, SpellChunk;
    CommentCloses(s, i);
    CommentChunk(s, i);
    k := CommentEnd(s, i).value;
    CommentMinified(s, i, k);
    chunk := BlockComment(s[i + 1..k - 2]);
    BlockFitsAnywhere(chunk.text, s[k..]);
  }

  lemma BlockFitsAnywhere(text: bytes, rest: bytes)
    ensures Fits(BlockComment(text), rest) == Fits(BlockComment(text), [])
  {
  }

  lemma CommentCloses(s: bytes, i: nat)
    requires i + 1 < |s| && s[i] == SLASH && s[i + 1] == STAR && Minified(s, i).Some?
    ensures CommentEnd(s, i).Some?
  {
    hide Scan, LineEnd, CommentEnd;
  }

  lemma QuoteCloses(s: bytes, i: nat)
    requires i < |s| && s[i] == QUOTE && Minified(s, i).Some?
    ensures Scan(s, i + 1).Some?
  {
    hide Scan, LineEnd, CommentEnd;
  }

  lemma QuotedChunk(s: bytes, i: nat) returns (chunk: Chunk, k: nat)
    requires i < |s| && s[i] == QUOTE && Minified(s, i).Some?
    ensures i < k <= |s| && s[i..k] == SpellChunk(chunk) && Fits(chunk, s[k..]) && Minified(s, k).Some?
  {
    hide Minified, Scan, Body;
    QuoteCloses(s, i);
    ScanBody(s, i + 1);
    k := Scan(s, i + 1).value + 1;
    QuotedMinified(s, i, k);
    chunk := Quoted(s[i + 1..k - 1]);
    assert s[i..k] == [QUOTE] + s[i + 1..k - 1] + [QUOTE];
  }

  lemma {:induction false} MinifiedIsCut(s: bytes, i: nat) returns (chunks: seq<Chunk>)
    requires i <= |s| && Minified(s, i).Some?
    ensures Cut(chunks) && Spell(chunks) == s[i..]
    decreases |s| - i
  {
    hide Minified, Fits, SpellChunk;
    if i == |s| {
      chunks := [];
    } else {
      var chunk, k := FirstChunk(s, i);
      var rest := MinifiedIsCut(s, k);
      chunks := [chunk] + rest;
      assert chunks[1..] == rest;
      assert s[i..] == s[i..k] + s[k..];
    }
  }

  /** A text is minified to `out` exactly if it can be cut into such pieces and `out` is what is kept of them; a text
      that cannot be cut has a string or a comment left open. */
  lemma MinifyKeepsChunks(s: bytes, out: bytes)
    ensures Minified(s, 0) == Some(out) <==> exists chunks: seq<Chunk> :: Cut(chunks) && Spell(chunks) == s && Kept(chunks) == out
  {
    hide Minified;
    assert s[0..] == s;
    if Minified(s, 0) == Some(out) {
      var chunks := MinifiedIsCut(s, 0);
      ChunksMinified(s, 0, chunks);
    }
    if chunks: seq<Chunk> :| Cut(chunks) && Spell(chunks) == s && Kept(chunks) == out {
      ChunksMinified(s, 0, chunks);
    }
  }
}
