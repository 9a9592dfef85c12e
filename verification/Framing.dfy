/** Cutting the byte stream of a connection into messages (corecode/server/Server.c, corecode/client/Client.c).
    Messages stay where they were read: later reads must not touch them. */
module Framing {
  import opened Bytes

  /** What the bytes at hand amount to: too few, nothing acceptable, or a first message of `n` bytes. */
  datatype Decision = More | Bad | Message(n: nat)

  type Look = bytes -> Decision

  const SERVER_HEADER := 4
  const CLIENT_HEADER := 8

  /** Below the header length the decoder is not even asked. */
  function Decide(header: nat, decode: Look, b: bytes): Decision {
    if |b| < header then More else decode(b)
  }

  /** More bytes never change a decision once it has been taken. */
  ghost predicate Stable(header: nat, decode: Look) {
    && (forall b: bytes :: Decide(header, decode, b).Message? ==> 0 < Decide(header, decode, b).n <= |b|)
    && (forall b: bytes, c: bytes :: !Decide(header, decode, b).More? ==>
                                        Decide(header, decode, b + c) == Decide(header, decode, b))
  }

  /** No message is longer than a read buffer: a full one always allows a decision. */
  ghost predicate Fits(header: nat, decode: Look, size: nat) {
    forall b: bytes :: |b| >= size ==> !Decide(header, decode, b).More?
  }

  datatype Framed = Framed(messages: seq<bytes>, rest: bytes, bad: bool)

  /** The messages in a piece of the stream, and what is left behind them. */
  ghost function Frames(header: nat, decode: Look, b: bytes): Framed
    requires Stable(header, decode)
    decreases |b|
  {
    match Decide(header, decode, b)
    case More => Framed([], b, false)
    case Bad => Framed([], b, true)
    case Message(n) =>
      var later := Frames(header, decode, b[n..]);
      later.(messages := [b[..n]] + later.messages)
  }

  ghost function Then(first: Framed, later: Framed): Framed {
    later.(messages := first.messages + later.messages)
  }

  lemma StableAt(header: nat, decode: Look, b: bytes, c: bytes)
    requires Stable(header, decode)
    ensures var decision := Decide(header, decode, b);
            && (decision.Message? ==> 0 < decision.n <= |b|)
            && (!decision.More? ==> Decide(header, decode, b + c) == decision)
  {
  }

  lemma FramesFirst(header: nat, decode: Look, b: bytes)
    requires Stable(header, decode)
    ensures match Decide(header, decode, b)
            case More => Frames(header, decode, b) == Framed([], b, false)
            case Bad => Frames(header, decode, b) == Framed([], b, true)
            case Message(n) =>
              0 < n <= |b| && Frames(header, decode, b) == Then(Framed([b[..n]], [], false), Frames(header, decode, b[n..]))
  {
    StableAt(header, decode, b, []);
  }

  /** Splitting the stream anywhere makes no difference to the messages in it. */
  lemma {:induction false} FramesSplit(header: nat, decode: Look, b: bytes, c: bytes)
    requires Stable(header, decode)
    ensures var first := Frames(header, decode, b);
            if first.bad then Frames(header, decode, b + c) == first.(rest := first.rest + c)
            else Frames(header, decode, b + c) == Then(first, Frames(header, decode, first.rest + c))
    decreases |b|
  {
    hide Stable, Decide, Frames;
    StableAt(header, decode, b, c);
    FramesFirst(header, decode, b);
    FramesFirst(header, decode, b + c);
    var decision := Decide(header, decode, b);
    if decision.Message? {
      var n := decision.n;
      FramesSplit(header, decode, b[n..], c);
      assert (b + c)[n..] == b[n..] + c && (b + c)[..n] == b[..n];
    }
  }

  lemma {:induction false} RestDecided(header: nat, decode: Look, b: bytes)
    requires Stable(header, decode)
    ensures var all := Frames(header, decode, b); !all.bad ==> Decide(header, decode, all.rest).More?
    decreases |b|
  {
    if Decide(header, decode, b).Message? {
      RestDecided(header, decode, b[Decide(header, decode, b).n..]);
    }
  }

  lemma RestShort(header: nat, decode: Look, b: bytes, size: nat)
    requires Stable(header, decode) && Fits(header, decode, size) && !Frames(header, decode, b).bad
    ensures |Frames(header, decode, b).rest| < size
  {
    RestDecided(header, decode, b);
  }

  lemma Joined(b: bytes, i: nat, j: nat)
    requires i <= j <= |b|
    ensures b[i..] == b[i..j] + b[j..]
  {
  }

  lemma SameSlice(a: bytes, b: bytes, n: nat, i: nat, j: nat)
    requires i <= j <= n <= |a| == |b|
    ensures a[..n] == b[..n] ==> a[i..j] == b[i..j]
  {
    assert a[i..j] == a[..n][i..j] && b[i..j] == b[..n][i..j];
  }

  function Flatten(chunks: seq<bytes>): bytes {
    if chunks == [] then [] else chunks[0] + Flatten(chunks[1..])
  }

  /** Messages that stand on their own, one after the other, are cut exactly where they were joined. */
  lemma {:induction false} SentIsFramed(header: nat, decode: Look, sent: seq<bytes>)
    requires Stable(header, decode)
    requires forall m :: m in sent ==> Decide(header, decode, m) == Message(|m|)
    requires Decide(header, decode, []).More?
    ensures Frames(header, decode, Flatten(sent)) == Framed(sent, [], false)
  {
    if sent != [] {
      var first, all := sent[0], Flatten(sent);
      assert Decide(header, decode, first + Flatten(sent[1..])) == Message(|first|);
      SentIsFramed(header, decode, sent[1..]);
      assert all[|first|..] == Flatten(sent[1..]) && all[..|first|] == first;
      assert sent == [first] + sent[1..];
    }
  }

  /** Reading piece by piece: each read parses what was left over together with the new bytes. */
  ghost function Feed(header: nat, decode: Look, sofar: Framed, chunks: seq<bytes>): Framed
    requires Stable(header, decode)
    decreases |chunks|
  {
    if chunks == [] || sofar.bad then sofar
    else Feed(header, decode, Then(sofar, Frames(header, decode, sofar.rest + chunks[0])), chunks[1..])
  }

  lemma {:induction false} FeedIsFrames(header: nat, decode: Look, read: bytes, chunks: seq<bytes>)
    requires Stable(header, decode)
    ensures var piecewise, whole := Feed(header, decode, Frames(header, decode, read), chunks), Frames(header, decode, read + Flatten(chunks));
            piecewise.messages == whole.messages && piecewise.bad == whole.bad && (!whole.bad ==> piecewise == whole)
    decreases |chunks|
  {
    hide Stable, Decide, Frames;
    FramesSplit(header, decode, read, Flatten(chunks));
    if chunks == [] {
      assert read + Flatten(chunks) == read;
    } else if !Frames(header, decode, read).bad {
      FramesSplit(header, decode, read, chunks[0]);
      FeedIsFrames(header, decode, read + chunks[0], chunks[1..]);
      assert read + Flatten(chunks) == read + chunks[0] + Flatten(chunks[1..]);
    }
  }

  /** However the stream of the sent messages is split into reads, exactly these messages are delivered. */
  lemma AnySplitDelivers(header: nat, decode: Look, sent: seq<bytes>, chunks: seq<bytes>)
    requires Stable(header, decode) && Decide(header, decode, []).More?
    requires forall m :: m in sent ==> Decide(header, decode, m) == Message(|m|)
    requires Flatten(chunks) == Flatten(sent)
    ensures Feed(header, decode, Framed([], [], false), chunks) == Framed(sent, [], false)
  {
    assert Frames(header, decode, []) == Framed([], [], false);
    FeedIsFrames(header, decode, [], chunks);
    SentIsFramed(header, decode, sent);
    assert [] + Flatten(chunks) == Flatten(chunks);
  }

  /** The decoder of responses of a fixed size (SENDER_RESPONSE_DECODER): an error ends after the header. */
  function FixedResponse(size: nat, b: bytes): Decision {
    if |b| < CLIENT_HEADER then More
    else if b[..4] != [0, 0, 0, 0] then Message(CLIENT_HEADER)
    else if |b| < size then More
    else Message(size)
  }

  /** Such a decoder never changes its mind, and a read buffer is large enough exactly if it can hold one response. */
  lemma FixedResponseIsStable(size: nat, buffer: nat)
    requires size >= CLIENT_HEADER
    ensures Stable(CLIENT_HEADER, (b: bytes) => FixedResponse(size, b))
    ensures Fits(CLIENT_HEADER, (b: bytes) => FixedResponse(size, b), buffer) <==> size <= buffer
  {
    var decode: Look := (b: bytes) => FixedResponse(size, b);
    forall b: bytes, c: bytes | !Decide(CLIENT_HEADER, decode, b).More?
      ensures Decide(CLIENT_HEADER, decode, b + c) == Decide(CLIENT_HEADER, decode, b)
    {
      assert (b + c)[..4] == b[..4];
    }
    if buffer < size {
      var short := seq(size - 1, i => 0 as byte);
      assert Decide(CLIENT_HEADER, decode, short).More? by {
        if |short| >= CLIENT_HEADER {
          assert short[..4] == [0, 0, 0, 0];
        }
      }
    }
  }

  /** What the server knows under a resource and a request: nothing, a decoder that is not written yet and never
      accepts, or one for requests of a fixed size. */
  datatype Handler = Missing | Unwritten | Fixed(size: nat)

  type Handlers = (nat, nat) -> Handler

  function HandlerOf(handlers: Handlers, b: bytes): Handler
    requires |b| >= SERVER_HEADER
  {
    handlers(b[0] as int + 256 * (b[1] as int), b[2] as int + 256 * (b[3] as int))
  }

  /** One turn of the server's loop. */
  function FixedRequest(handlers: Handlers, b: bytes): Decision {
    if |b| < SERVER_HEADER then More
    else
      match HandlerOf(handlers, b)
      case Missing => Bad
      case Unwritten => More
      case Fixed(size) => if |b| < size then More else Message(size)
  }

  /** Every full buffer allows a decision about such a request. */
  predicate Decided(handler: Handler, buffer: nat) {
    !handler.Unwritten? && (handler.Fixed? ==> handler.size <= buffer)
  }

  /** The server's decoders never change their mind, and a read buffer is large enough exactly if it holds the
      header, every decoder is written and the buffer can hold each of their requests. */
  lemma FixedRequestIsStable(handlers: Handlers, buffer: nat)
    requires forall r, q :: handlers(r, q).Fixed? ==> handlers(r, q).size >= SERVER_HEADER
    ensures Stable(SERVER_HEADER, (b: bytes) => FixedRequest(handlers, b))
    ensures Fits(SERVER_HEADER, (b: bytes) => FixedRequest(handlers, b), buffer) <==>
              buffer >= SERVER_HEADER && forall r: nat, q: nat :: r < 0x1_0000 && q < 0x1_0000 ==> Decided(handlers(r, q), buffer)
  {
    var decode: Look := (b: bytes) => FixedRequest(handlers, b);
    forall b: bytes, c: bytes | !Decide(SERVER_HEADER, decode, b).More?
      ensures Decide(SERVER_HEADER, decode, b + c) == Decide(SERVER_HEADER, decode, b)
    {
      assert HandlerOf(handlers, b + c) == HandlerOf(handlers, b);
    }
    if Fits(SERVER_HEADER, decode, buffer) {
      var short := seq(buffer, i => 0 as byte);
      assert !Decide(SERVER_HEADER, decode, short).More?;
      forall r: nat, q: nat | r < 0x1_0000 && q < 0x1_0000 ensures Decided(handlers(r, q), buffer) {
        var b := Asking(r, q, buffer);
        assert !Decide(SERVER_HEADER, decode, b).More?;
      }
    } else {
      var b: bytes :| |b| >= buffer && Decide(SERVER_HEADER, decode, b).More?;
      if buffer >= SERVER_HEADER {
        var r, q := b[0] as int + 256 * (b[1] as int), b[2] as int + 256 * (b[3] as int);
        assert !Decided(handlers(r, q), buffer);
      }
    }
  }

  /** A full buffer that begins with a request for r and q. */
  lemma Asking(r: nat, q: nat, buffer: nat) returns (b: bytes)
    requires r < 0x1_0000 && q < 0x1_0000 && buffer >= SERVER_HEADER
    ensures |b| == buffer
    ensures b[0] as int + 256 * (b[1] as int) == r && b[2] as int + 256 * (b[3] as int) == q
  {
    b := [r % 256, r / 256, q % 256, q / 256] + seq(buffer - SERVER_HEADER, i => 0 as byte);
  }

  /** The first n bytes of a window, and the others. */
  lemma Window(a: array<byte>, from: nat, length: nat, n: nat)
    requires n <= length && from + length <= a.Length
    ensures a[from..from + n] == a[from..from + length][..n]
    ensures a[from + n..from + n + (length - n)] == a[from..from + length][n..]
  {
  }

  lemma NothingTaken(before: seq<bytes>, rest: bytes, bad: bool)
    ensures Then(Framed(before, [], false), Framed([], rest, bad)) == Framed(before, rest, bad)
  {
  }

  lemma OneMoreTaken(before: seq<bytes>, message: bytes, later: Framed)
    ensures Then(Framed(before, [], false), Then(Framed([message], [], false), later)) == Then(Framed(before + [message], [], false), later)
  {
    assert before + ([message] + later.messages) == before + [message] + later.messages;
  }

  /** A delivered message, still inside the buffer it was read into. */
  datatype Slice = Slice(buffer: array<byte>, from: nat, to: nat)

  class Receiver {
    const header: nat
    const decode: Look
    const size: nat
    var buffer: array<byte>
    var processed: nat
    var start: nat          // where the next read goes
    var armed: bool         // a read is under way
    ghost var received: bytes
    ghost var messages: seq<bytes>
    ghost var slices: seq<Slice>

    ghost predicate Valid()
      reads this, buffer, set s | s in slices :: s.buffer
    {
      && Stable(header, decode)
      && buffer.Length == size
      && (armed ==> processed <= start <= size
                    && Frames(header, decode, received) == Framed(messages, buffer[processed..start], false))
      && Untouched()
    }

    /** Every message delivered in place still reads as it was sent. */
    ghost predicate Untouched()
      reads `buffer, `processed, `messages, `slices, buffer, set s | s in slices :: s.buffer
    {
      && |slices| == |messages|
      && forall k :: 0 <= k < |slices| ==> Intact(slices[k], messages[k], buffer, processed)
    }

    static ghost predicate Intact(s: Slice, m: bytes, buffer: array<byte>, processed: nat)
      reads s.buffer
    {
      && s.from <= s.to <= s.buffer.Length
      && s.buffer[s.from..s.to] == m
      && (s.buffer == buffer ==> s.to <= processed)
    }

    constructor (header: nat, decode: Look, size: nat)
      requires Stable(header, decode) && Decide(header, decode, []).More?
      ensures Valid() && armed && fresh(buffer)
      ensures this.header == header && this.decode == decode && this.size == size && start == 0
      ensures received == [] && messages == [] && slices == []
    {
      this.header, this.decode, this.size := header, decode, size;
      buffer, processed, start, armed := new byte[size], 0, 0, true;
      received, messages, slices := [], [], [];
    }

    /** The kernel puts bytes behind `start`, and nowhere else. */
    method Fill(data: bytes)
      requires Valid() && armed && |data| <= size - start
      modifies buffer
      ensures Valid()
      ensures buffer[start..start + |data|] == data
      ensures buffer[..start] == old(buffer[..start])
    {
      hide Stable, Frames;
      label before:
      for i := 0 to |data|
        invariant buffer[start..start + i] == data[..i]
        invariant buffer[..start] == old(buffer[..start])
      {
        buffer[start + i] := data[i];
      }
      assert buffer[processed..start] == buffer[..start][processed..];
      StillUntouched@before();
    }

    /** Whatever happens behind `processed` leaves the delivered messages alone. */
    twostate lemma StillUntouched()
      requires old(Untouched()) && processed == old(processed) && buffer == old(buffer) && slices == old(slices)
      requires messages == old(messages) && processed <= buffer.Length
      requires buffer[..processed] == old(buffer[..processed])
      requires forall k :: 0 <= k < |slices| && slices[k].buffer != buffer ==> unchanged(slices[k].buffer)
      ensures Untouched()
    {
      forall k | 0 <= k < |slices| ensures Intact(slices[k], messages[k], buffer, processed) {
        var s := slices[k];
        assert old(Intact(s, messages[k], buffer, processed));
        if s.buffer == buffer {
          assert s.from <= s.to <= processed <= buffer.Length;
          SameSlice(buffer[..], old(buffer[..]), processed, s.from, s.to);
          assert buffer[..][..processed] == buffer[..processed] && old(buffer[..])[..processed] == old(buffer[..processed]);
        }
      }
    }

    static method CopyOf(source: array<byte>, from: nat, length: nat, size: nat) returns (b: array<byte>)
      requires from + length <= source.Length && length <= size
      ensures fresh(b) && b.Length == size && b[..length] == source[from..from + length]
    {
      b := new byte[size];
      for i := 0 to length
        invariant b[..i] == source[from..from + i]
      {
        b[i] := source[from + i];
      }
    }

    /** serverRead and clientRead: reads go on behind the `length` bytes left over, in the same buffer while
        there is room, otherwise behind a copy of them at the start of a new one. */
    method ReArm(length: nat)
      requires buffer.Length == size && processed + length <= size && Untouched()
      modifies `buffer, `processed, `start
      ensures buffer.Length == size && processed <= start <= size && Untouched()
      ensures buffer[processed..start] == old(buffer[processed..processed + length])
      ensures old(processed) + length < size ==> buffer == old(buffer) && processed == old(processed)
      ensures old(processed) + length >= size ==> fresh(buffer) && processed == 0
      ensures start == processed + length && (buffer == old(buffer) || fresh(buffer))
      ensures start < size <==> length < size
    {
      if processed + length < size {
        start := processed + length;
      } else {
        var b := CopyOf(buffer, processed, length, size);
        forall k | 0 <= k < |slices| ensures Intact(slices[k], messages[k], b, 0) {
          assert Intact(slices[k], messages[k], buffer, processed);
        }
        buffer, processed, start := b, 0, length;
      }
    }

    /** One completed read: the kernel's bytes, the parsing loop and the next read, if there is one. */
    method Received(data: bytes)
      requires Valid() && armed && |data| <= size - start
      modifies this, buffer
      ensures Valid() && (buffer == old(buffer) || fresh(buffer))
      ensures received == old(received) + data && old(slices) <= slices
      ensures var all := Frames(header, decode, received);
              && messages == all.messages && armed == !all.bad
              && (armed ==> (start < size <==> |all.rest| < size))
      ensures armed && Fits(header, decode, size) && size > 0 ==> start < size
    {
      hide Stable, Frames, Fits;
      Fill(data);
      var length: nat := start - processed + |data|;
      ghost var window := buffer[processed..processed + length];
      Joined(buffer[..start + |data|], processed, start);
      assert window == buffer[..start + |data|][processed..] && buffer[..start + |data|][start..] == data;
      assert buffer[..start + |data|][processed..start] == buffer[..start][processed..] == old(buffer[processed..start]);
      FramesSplit(header, decode, received, data);
      received := received + data;
      Parse(length, Frames(header, decode, received));
      if armed && Fits(header, decode, size) && size > 0 {
        RestShort(header, decode, received, size);
      }
    }

    /** The loop of serverReadCallback and clientReadCallback over the bytes not yet delivered. */
    method Parse(unread: nat, ghost total: Framed)
      requires Stable(header, decode) && buffer.Length == size && processed + unread <= size && Untouched() && armed
      requires total == Then(Framed(messages, [], false), Frames(header, decode, buffer[processed..processed + unread]))
      modifies `buffer, `processed, `start, `armed, `messages, `slices
      ensures buffer.Length == size && processed <= size && Untouched() && (buffer == old(buffer) || fresh(buffer))
      ensures messages == total.messages && armed == !total.bad && old(slices) <= slices
      ensures armed ==> processed <= start <= size && buffer[processed..start] == total.rest && (start < size <==> |total.rest| < size)
    {
      hide Stable, Frames, Decide, Untouched, Then;
      var length: nat := unread;
      while true
        invariant buffer.Length == size && processed + length <= size && buffer == old(buffer)
        invariant Untouched() && old(slices) <= slices && armed
        invariant total == Then(Framed(messages, [], false), Frames(header, decode, buffer[processed..processed + length]))
        decreases length
      {
        hide Stable, Frames, Decide, Untouched, Then;
        ghost var window := buffer[processed..processed + length];
        FramesFirst(header, decode, window);
        match Decide(header, decode, buffer[processed..processed + length]) {
          case More =>
            NothingTaken(messages, window, false);
            ReArm(length);
            return;
          case Bad =>
            NothingTaken(messages, window, true);
            Refuse();
            return;
          case Message(n) =>
            Window(buffer, processed, length, n);
            OneMoreTaken(messages, window[..n], Frames(header, decode, window[n..]));
            Deliver(n, length);
            length := length - n;
        }
      }
    }

    /** Nothing acceptable: the connection is given up, and no further read is started. */
    method Refuse()
      requires Untouched()
      modifies `armed
      ensures !armed && Untouched()
    {
      armed := false;
      forall k | 0 <= k < |slices| ensures Intact(slices[k], messages[k], buffer, processed) {
        assert old(Intact(slices[k], messages[k], buffer, processed));
      }
    }

    /** Hands out the first message of the window where it stands. */
    method Deliver(n: nat, ghost length: nat)
      requires buffer.Length == size && processed + length <= size && Untouched() && 0 < n <= length
      modifies `processed, `messages, `slices
      ensures buffer.Length == size && processed == old(processed) + n && Untouched()
      ensures messages == old(messages) + [buffer[old(processed)..processed]]
      ensures slices == old(slices) + [Slice(buffer, old(processed), processed)]
    {
      ghost var was := processed;
      messages, slices := messages + [buffer[processed..processed + n]], slices + [Slice(buffer, processed, processed + n)];
      processed := processed + n;
      forall k | 0 <= k < |slices| ensures Intact(slices[k], messages[k], buffer, processed) {
        if k < |slices| - 1 {
          assert old(Intact(slices[k], messages[k], buffer, was));
        }
      }
    }
  }
}
