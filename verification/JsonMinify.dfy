/** cJSON_Minify (cJSON.c:2633-2701): dropping whitespace and comments in place. */
module JsonMinify {
  import opened Bytes
  import opened JsonText
  import opened JsonString

  predicate Space(c: byte) {
    c == SPACE || c == TAB || c == RETURN || c == NEWLINE
  }

  /** Position of the newline that ends a line comment, or the end of the text. */
  function LineEnd(s: bytes, i: nat): (r: nat)
    requires i <= |s|
    ensures i <= r <= |s|
    decreases |s| - i
  {
    if i < |s| && s[i] != NEWLINE then LineEnd(s, i + 1) else i
  }

  /** Position behind the end of a block comment, if it has one. */
  function CommentEnd(s: bytes, i: nat): (r: Option<nat>)
    ensures r.Some? ==> i < r.value <= |s|
    decreases |s| - i
  {
    if i + 1 >= |s| then None
    else if s[i] == STAR && s[i + 1] == SLASH then Some(i + 2)
    else CommentEnd(s, i + 1)
  }

  /** The minified text from i on; None when a string or a comment is left open at the end, where
      the scan would run over the terminator. */
  function Minified(s: bytes, i: nat): (r: Option<bytes>)
    requires i <= |s|
    ensures r.Some? ==> |r.value| <= |s| - i
    decreases |s| - i
  {
    if i == |s| then Some([])
    else if Space(s[i]) then Minified(s, i + 1)
    else if s[i] == SLASH && i + 1 < |s| && s[i + 1] == SLASH then
      Minified(s, if LineEnd(s, i) > i then LineEnd(s, i) else i + 1)
    else if s[i] == SLASH && i + 1 < |s| && s[i + 1] == STAR then
      match CommentEnd(s, i)
      case None => None
      case Some(k) => Minified(s, k)
    else if s[i] == QUOTE then
      match Scan(s, i + 1)
      case None => None
      case Some(end) => Behind(s[i..end + 1], Minified(s, end + 1))
    else Behind([s[i]], Minified(s, i + 1))
  }

  function Behind(before: bytes, rest: Option<bytes>): Option<bytes> {
    match rest
    case None => None
    case Some(t) => Some(before + t)
  }

  lemma BehindTwice(a: bytes, b: bytes, rest: Option<bytes>)
    ensures Behind(a, Behind(b, rest)) == Behind(a + b, rest)
  {
    if rest.Some? {
      assert a + (b + rest.value) == a + b + rest.value;
    }
  }

  lemma BehindNothing(rest: Option<bytes>)
    ensures Behind([], rest) == rest
  {
    if rest.Some? {
      assert [] + rest.value == rest.value;
    }
  }

  // ---- the scan, in place ----

  /** The text of n bytes is minified where it stands: json reads ahead of into, which writes.  It fails where
      json would step over the terminator. */
  method Minify(a: array<byte>, n: nat) returns (ok: bool)
    requires n < a.Length && a[n] == NUL && NUL !in a[..n]
    modifies a
    ensures ok <==> Minified(old(a[..n]), 0).Some?
    ensures ok ==> var m := Minified(old(a[..n]), 0).value;
                   && |m| <= n && a[..|m|] == m && a[|m|] == NUL
                   && forall k :: |m| < k < a.Length ==> a[k] == old(a[k])
  {
    ok := true;
    ghost var s := a[..n];
    var json, into := 0, 0;
    BehindNothing(Minified(s, 0));
    while a[json] != NUL
      invariant ok && 0 <= into <= json <= n
      invariant forall k :: into <= k < a.Length ==> a[k] == old(a[k])
      invariant Behind(a[..into], Minified(s, json)) == Minified(s, 0)
      decreases n - json
    {
      assert s[json] == a[json];
      if a[json] == SPACE || a[json] == TAB || a[json] == RETURN || a[json] == NEWLINE {
        json := json + 1;
      } else if a[json] == SLASH && a[json + 1] == SLASH {
        json := SkipLine(a, json, n, s);
      } else if a[json] == SLASH && a[json + 1] == STAR {
        ok, json := SkipComment(a, json, n, s);
        if !ok {
          return;
        }
      } else if a[json] == QUOTE {
        ok, json, into := CopyLiteral(a, json, into, n, s);
        if !ok {
          return;
        }
      } else {
        json, into := CopyOne(a, json, into, n, s);
      }
    }
    assert a[..into] + [] == a[..into];
    a[into] := NUL;
  }

  method SkipLine(a: array<byte>, from: nat, n: nat, ghost s: bytes) returns (json: nat)
    requires from + 1 < n == |s| < a.Length && a[n] == NUL && NUL !in s && a[from..n] == s[from..]
    requires s[from] == SLASH && s[from + 1] == SLASH
    ensures from < json <= n && Minified(s, json) == Minified(s, from)
  {
    json := from;
    while a[json] != NUL && a[json] != NEWLINE
      invariant from <= json <= n && LineEnd(s, json) == LineEnd(s, from)
      decreases n - json
    {
      json := json + 1;
    }
  }

  method SkipComment(a: array<byte>, from: nat, n: nat, ghost s: bytes) returns (ok: bool, json: nat)
    requires from + 1 < n == |s| < a.Length && a[n] == NUL && NUL !in s && a[from..n] == s[from..]
    requires s[from] == SLASH && s[from + 1] == STAR
    ensures if ok then from < json <= n && Minified(s, json) == Minified(s, from) else Minified(s, from).None?
  {
    json := from;
    while a[json] != NUL && !(a[json] == STAR && a[json + 1] == SLASH)
      invariant from <= json <= n && CommentEnd(s, json) == CommentEnd(s, from)
      decreases n - json
    {
      json := json + 1;
    }
    ok := a[json] != NUL;
    CommentStep(s, json);
    json := json + 2;
  }

  lemma CommentStep(s: bytes, i: nat)
    ensures i >= |s| ==> CommentEnd(s, i) == None
    ensures i + 1 < |s| && s[i] == STAR && s[i + 1] == SLASH ==> CommentEnd(s, i) == Some(i + 2)
  {
  }

  method CopyOne(a: array<byte>, from: nat, at: nat, n: nat, ghost s: bytes) returns (json: nat, into: nat)
    requires at <= from < n == |s| < a.Length && a[from] == s[from]
    requires !Space(s[from]) && s[from] != QUOTE
    requires s[from] == SLASH && from + 1 < n ==> s[from + 1] != SLASH && s[from + 1] != STAR
    modifies a
    ensures json == from + 1 && into == at + 1
    ensures forall k :: into <= k < a.Length ==> a[k] == old(a[k])
    ensures Behind(a[..into], Minified(s, json)) == Behind(old(a[..at]), Minified(s, from))
  {
    json, into := Move(a, from, at, n, s);
    BehindTwice(old(a[..at]), [s[from]], Minified(s, json));
  }

  /** Copies a string literal with its quotes, escapes untouched. */
  method CopyLiteral(a: array<byte>, from: nat, at: nat, n: nat, ghost s: bytes) returns (ok: bool, json: nat, into: nat)
    requires at <= from < n == |s| < a.Length && a[n] == NUL && NUL !in s
    requires forall k :: from <= k < n ==> a[k] == s[k]
    requires s[from] == QUOTE
    modifies a
    ensures ok ==> from < json <= n && at < into <= json
    ensures ok ==> forall k :: into <= k < a.Length ==> a[k] == old(a[k])
    ensures if ok then Behind(a[..into], Minified(s, json)) == Behind(old(a[..at]), Minified(s, from)) else Minified(s, from).None?
  {
    hide Minified, Scan;
    LiteralTaken(s, from);
    ghost var prefix := a[..at];
    json, into := Move(a, from, at, n, s);
    ok, json, into := CopyCharacters(a, json, into, n, s);
    if ok {
      json, into := Move(a, json, into, n, s);
      LiteralParts(prefix, s, from, json);
      BehindTwice(prefix, s[from..json], Minified(s, json));
    }
  }

  /** Copies up to the closing quote, the byte behind a backslash along with it. */
  method CopyCharacters(a: array<byte>, from: nat, at: nat, n: nat, ghost s: bytes) returns (ok: bool, json: nat, into: nat)
    requires at <= from <= n == |s| < a.Length && a[n] == NUL && NUL !in s
    requires forall k :: from <= k < n ==> a[k] == s[k]
    modifies a
    ensures ok <==> Scan(s, from).Some?
    ensures ok ==> Scan(s, from) == Some(json) && into - at == json - from
    ensures ok ==> forall k :: into <= k < a.Length ==> a[k] == old(a[k])
    ensures ok ==> a[..into] == old(a[..at]) + s[from..json]
  {
    hide Scan;
    json, into := from, at;
    while a[json] != NUL && a[json] != QUOTE
      invariant from <= json <= n && into - at == json - from
      invariant Scan(s, json) == Scan(s, from)
      invariant forall k :: into <= k < a.Length ==> a[k] == old(a[k])
      invariant a[..into] == old(a[..at]) + s[from..json]
      decreases n - json
    {
      assert a[json] == s[json];
      ScanStep(s, json);
      if a[json] == BACKSLASH && a[json + 1] == NUL {
        return false, json, into;
      }
      var count := if a[json] == BACKSLASH then 2 else 1;
      SlicesJoin(old(a[..at]), s, from, json, json + count);
      json, into := MoveSome(a, json, into, n, s, count);
    }
    ScanStep(s, json);
    ok := a[json] == QUOTE;
  }

  /** count bytes moved one after the other. */
  method MoveSome(a: array<byte>, from: nat, at: nat, ghost n: nat, ghost s: bytes, count: nat) returns (json: nat, into: nat)
    requires at <= from && from + count <= n == |s| < a.Length
    requires forall k :: from <= k < n ==> a[k] == s[k]
    modifies a
    ensures json == from + count && into == at + count
    ensures a[..into] == old(a[..at]) + s[from..json]
    ensures forall k :: into <= k < a.Length ==> a[k] == old(a[k])
  {
    json, into := from, at;
    while into < at + count
      invariant from <= json <= from + count && into - at == json - from
      invariant a[..into] == old(a[..at]) + s[from..json]
      invariant forall k :: into <= k < a.Length ==> a[k] == old(a[k])
    {
      SlicesJoin(old(a[..at]), s, from, json, json + 1);
      a[into] := a[json];
      json, into := json + 1, into + 1;
    }
  }

  lemma SlicesJoin(before: bytes, s: bytes, from: nat, mid: nat, to: nat)
    requires from <= mid <= to <= |s|
    ensures before + s[from..mid] + s[mid..to] == before + s[from..to]
  {
    assert s[from..mid] + s[mid..to] == s[from..to];
  }

  lemma ScanStep(s: bytes, p: nat)
    ensures p >= |s| ==> Scan(s, p) == None
    ensures p < |s| && s[p] == QUOTE ==> Scan(s, p) == Some(p)
    ensures p < |s| && s[p] == BACKSLASH ==> Scan(s, p) == if p + 1 < |s| then Scan(s, p + 2) else None
    ensures p < |s| && s[p] != QUOTE && s[p] != BACKSLASH ==> Scan(s, p) == Scan(s, p + 1)
  {
  }

  lemma LiteralParts(prefix: bytes, s: bytes, from: nat, json: nat)
    requires from + 1 < json <= |s|
    ensures prefix + [s[from]] + s[from + 1..json - 1] + [s[json - 1]] == prefix + s[from..json]
  {
    assert s[from..json] == [s[from]] + s[from + 1..json - 1] + [s[json - 1]];
  }

  lemma LiteralTaken(s: bytes, from: nat)
    requires from < |s| && s[from] == QUOTE
    ensures match Scan(s, from + 1)
            case None => Minified(s, from) == None
            case Some(end) => Minified(s, from) == Behind(s[from..end + 1], Minified(s, end + 1))
  {
  }

  /** *into++ = *json++ */
  method Move(a: array<byte>, from: nat, at: nat, ghost n: nat, ghost s: bytes) returns (json: nat, into: nat)
    requires at <= from < n == |s| < a.Length && a[from] == s[from]
    modifies a
    ensures json == from + 1 && into == at + 1
    ensures a[..into] == old(a[..at]) + [s[from]]
    ensures forall k :: into <= k < a.Length ==> a[k] == old(a[k])
  {
    a[at] := a[from];
    json, into := from + 1, at + 1;
  }
}
