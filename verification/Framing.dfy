/**
 * Length-prefixed framing over a byte stream (interface/FramingIface.c).
 *
 * The reference is a decoder that sees the whole stream at once.
 */
module Framing {
  import opened Prelude

  type Bytes = seq<Byte>

  /** `Endian_bigEndianToHost32` of four header bytes. */
  function FromBigEndian(h: Bytes): (n: nat)
    requires |h| == 4
    ensures n < TWO_32
  {
    0x1000000 * (h[0] as int) + 0x10000 * (h[1] as int) + 0x100 * (h[2] as int) + h[3] as int
  }

  function ToBigEndian(n: nat): (h: Bytes)
    requires n < TWO_32
    ensures |h| == 4 && FromBigEndian(h) == n
  {
    var a := n / 0x100;
    var b := a / 0x100;
    [b / 0x100, b % 0x100, a % 0x100, n % 0x100]
  }

  /** The first byte in which two headers differ decides which length is larger. */
  lemma FirstByteDecides(h: Bytes, g: Bytes, i: nat)
    requires |h| == |g| == 4 && i < 4 && h[..i] == g[..i] && h[i] != g[i]
    ensures FromBigEndian(h) < FromBigEndian(g) <==> h[i] < g[i]
    ensures FromBigEndian(h) != FromBigEndian(g)
  {
    forall j | 0 <= j < i ensures h[j] == g[j] { assert h[..i][j] == g[..i][j]; }
  }

  /** So no two headers have one length. */
  lemma HeaderOfLength(h: Bytes)
    requires |h| == 4
    ensures ToBigEndian(FromBigEndian(h)) == h
  {
    var g := ToBigEndian(FromBigEndian(h));
    if g[0] != h[0] {
      FirstByteDecides(h, g, 0);
    } else if g[1] != h[1] {
      FirstByteDecides(h, g, 1);
    } else if g[2] != h[2] {
      FirstByteDecides(h, g, 2);
    } else if g[3] != h[3] {
      FirstByteDecides(h, g, 3);
    }
  }

  /** What `sendMessage` puts on the stream. */
  function Frame(msg: Bytes): Bytes
    requires |msg| < TWO_32
  {
    ToBigEndian(|msg|) + msg
  }

  /** Where a stream ends: with the bytes of an unfinished frame, or dead after an oversize one. */
  datatype Tail = Pending(bytes: Bytes) | Oversize

  datatype Decoded = Decoded(messages: seq<Bytes>, tail: Tail)

  /** The one-shot decoder. */
  function Decode(max: nat, stream: Bytes): Decoded
    decreases |stream|
  {
    if |stream| < 4 then Decoded([], Pending(stream))
    else
      var n := FromBigEndian(stream[..4]);
      if n > max then Decoded([], Oversize)
      else if |stream| - 4 < n then Decoded([], Pending(stream))
      else
        var rest := Decode(max, stream[4 + n..]);
        Decoded([stream[4..4 + n]] + rest.messages, rest.tail)
  }

  /** Feeding more bytes after a tail. */
  function Resume(max: nat, tail: Tail, more: Bytes): Decoded {
    match tail
    case Oversize => Decoded([], Oversize)
    case Pending(bytes) => Decode(max, bytes + more)
  }

  /** Prefixing a decoded stream with one more message. */
  function After(msg: Bytes, d: Decoded): Decoded {
    Decoded([msg] + d.messages, d.tail)
  }

  /** How the decoder treats a stream that starts with a whole frame of n bytes. */
  lemma DecodeWhole(max: nat, stream: Bytes, n: nat)
    requires |stream| >= 4 + n && FromBigEndian(stream[..4]) == n && n <= max
    ensures Decode(max, stream) == After(stream[4..4 + n], Decode(max, stream[4 + n..]))
  {
  }

  /** Where the decoder has no whole frame: too few bytes, or a length it does not take. */
  lemma DecodeStops(max: nat, stream: Bytes)
    ensures |stream| < 4 ==> Decode(max, stream) == Decoded([], Pending(stream))
    ensures |stream| >= 4 && FromBigEndian(stream[..4]) > max ==> Decode(max, stream) == Decoded([], Oversize)
    ensures |stream| >= 4 && |stream| - 4 < FromBigEndian(stream[..4]) <= max ==>
              Decode(max, stream) == Decoded([], Pending(stream))
  {
  }

  /** Two decodings one after the other. */
  function Then(first: Decoded, second: Decoded): Decoded {
    Decoded(first.messages + second.messages, second.tail)
  }

  lemma AfterThen(msg: Bytes, first: Decoded, second: Decoded)
    ensures Then(After(msg, first), second) == After(msg, Then(first, second))
  {
    assert ([msg] + first.messages) + second.messages == [msg] + (first.messages + second.messages);
  }

  /** Cutting the stream anywhere changes nothing. */
  lemma {:induction false} DecodeResumes(max: nat, a: Bytes, b: Bytes)
    ensures var first := Decode(max, a);
            Decode(max, a + b) == Then(first, Resume(max, first.tail, b))
    decreases |a|
  {
    var whole := Decode(max, a + b);
    assert Then(Decoded([], Oversize), whole) == whole;
    if |a| >= 4 {
      assert (a + b)[..4] == a[..4];
      var n := FromBigEndian(a[..4]);
      if n <= max && |a| - 4 >= n {
        assert (a + b)[4..4 + n] == a[4..4 + n];
        assert (a + b)[4 + n..] == a[4 + n..] + b;
        DecodeWhole(max, a, n);
        DecodeWhole(max, a + b, n);
        DecodeResumes(max, a[4 + n..], b);
        var inner := Decode(max, a[4 + n..]);
        AfterThen(a[4..4 + n], inner, Resume(max, inner.tail, b));
      }
    }
  }

  function Concat(chunks: seq<Bytes>): Bytes {
    if chunks == [] then [] else chunks[0] + Concat(chunks[1..])
  }

  /** The frames of a list of messages, one after the other. */
  function Frames(msgs: seq<Bytes>): Bytes
    requires forall m :: m in msgs ==> |m| < TWO_32
  {
    if msgs == [] then [] else Frame(msgs[0]) + Frames(msgs[1..])
  }

  /** The messages in front of the first one over the limit. */
  function UpToOversize(max: nat, msgs: seq<Bytes>): seq<Bytes> {
    if msgs == [] || |msgs[0]| > max then [] else [msgs[0]] + UpToOversize(max, msgs[1..])
  }

  /** Decoding undoes framing, up to the first message over the limit and for good after it. */
  lemma {:induction false} DecodeUndoesFrames(max: nat, msgs: seq<Bytes>)
    requires forall m :: m in msgs ==> |m| < TWO_32
    ensures Decode(max, Frames(msgs)).messages == UpToOversize(max, msgs)
    ensures Decode(max, Frames(msgs)).tail ==
              if exists m :: m in msgs && |m| > max then Oversize else Pending([])
    decreases |msgs|
  {
    if msgs != [] {
      var m, rest := msgs[0], Frames(msgs[1..]);
      var stream := Frame(m) + rest;
      assert stream[..4] == ToBigEndian(|m|);
      DecodeUndoesFrames(max, msgs[1..]);
      if |m| <= max {
        assert stream[4..4 + |m|] == m;
        assert stream[4 + |m|..] == rest;
        assert (exists x :: x in msgs && |x| > max) <==> (exists x :: x in msgs[1..] && |x| > max);
      } else {
        assert m in msgs;
      }
    }
  }

  /** The parts of an unfinished frame in stream order; the list has the newest part first. */
  function Joined(parts: seq<Bytes>): Bytes {
    if parts == [] then [] else Joined(parts[1..]) + parts[0]
  }

  /** The receiving side of the interface. */
  class FramingIface {
    const maxMessageSize: nat

    var bytesRemaining: nat
    var frameParts: seq<Bytes>
    var header: Bytes
    var headerIndex: nat

    /** What has been passed on through `messageIf`, oldest first. */
    var delivered: seq<Bytes>

    /** The stored parts start a frame that is `bytesRemaining` short. */
    ghost predicate InFrame()
      reads this
    {
      var bytes := Joined(frameParts);
      && headerIndex == 0
      && 0 < bytesRemaining <= maxMessageSize
      && |bytes| >= 4
      && FromBigEndian(bytes[..4]) == |bytes| - 4 + bytesRemaining
      && FromBigEndian(bytes[..4]) <= maxMessageSize
    }

    ghost predicate Valid()
      reads this
    {
      && |header| == 4
      && headerIndex < 4
      && (frameParts != [] ==> InFrame())
      && (frameParts == [] && bytesRemaining > 0 ==> bytesRemaining > maxMessageSize)
    }

    /** The receiver's state as the end of the stream it has seen. */
    ghost function State(): Tail
      reads this
      requires Valid()
    {
      if bytesRemaining > maxMessageSize then Oversize
      else if frameParts != [] then Pending(Joined(frameParts))
      else Pending(header[..headerIndex])
    }

    constructor (maxMessageSize: nat)
      ensures Valid() && State() == Pending([]) && delivered == [] && this.maxMessageSize == maxMessageSize
    {
      this.maxMessageSize := maxMessageSize;
      bytesRemaining, frameParts, header, headerIndex, delivered := 0, [], [0, 0, 0, 0], 0, [];
    }

    method MergeMessage(last: Bytes) returns (out: Bytes)
      ensures out == Joined(frameParts) + last
    {
      out := last;
      var i := 0;
      while i < |frameParts|
        invariant 0 <= i <= |frameParts|
        invariant Joined(frameParts[i..]) + out == Joined(frameParts) + last
      {
        assert Joined(frameParts[i..]) == Joined(frameParts[i + 1..]) + frameParts[i] by {
          assert frameParts[i..][1..] == frameParts[i + 1..];
        }
        out := frameParts[i] + out;
        i := i + 1;
      }
    }

    /**
     * One chunk of the stream.  Whatever the chunk is, the messages it releases and the state it
     * leaves are those of the one-shot decoder resumed where the stream stood.
     */
    method ReceiveMessage(msg: Bytes)
      requires Valid()
      modifies this
      ensures Valid()
      ensures var d := Resume(maxMessageSize, old(State()), msg);
              delivered == old(delivered) + d.messages && State() == d.tail
      decreases |frameParts|
    {
      if bytesRemaining > maxMessageSize {
        return;
      }
      if frameParts != [] {
        if bytesRemaining <= |msg| {
          var wholeMessage := MergeMessage(msg);
          bytesRemaining := 0;
          frameParts := [];
          assert State() == Pending([]) && [] + wholeMessage == wholeMessage;
          ReceiveMessage(wholeMessage);
          return;
        }
        assert (Joined(frameParts) + msg)[..4] == Joined(frameParts)[..4];
        bytesRemaining := bytesRemaining - |msg|;
        frameParts := [msg] + frameParts;
        assert Joined(frameParts) == Joined(old(frameParts)) + msg;
        return;
      }
      ReceiveFrames(msg);
    }

    /** Move bytes from the chunk into the header until it is full or the chunk is used up. */
    method FillHeader(msg: Bytes) returns (rest: Bytes)
      requires |header| == 4 && headerIndex < 4
      modifies this`header, this`headerIndex
      ensures |header| == 4 && headerIndex <= 4
      ensures header[..headerIndex] + rest == old(header[..headerIndex]) + msg
      ensures headerIndex < 4 ==> rest == []
    {
      rest := msg;
      while headerIndex < 4
        invariant headerIndex <= 4 && |header| == 4
        invariant header[..headerIndex] + rest == old(header[..headerIndex]) + msg
        decreases 4 - headerIndex
      {
        if rest == [] {
          return;
        }
        assert header[headerIndex := rest[0]][..headerIndex + 1] == header[..headerIndex] + [rest[0]];
        assert (header[..headerIndex] + [rest[0]]) + rest[1..] == header[..headerIndex] + rest;
        header := header[headerIndex := rest[0]];
        rest := rest[1..];
        headerIndex := headerIndex + 1;
      }
    }

    /** The loop over whole frames, entered with no frame under way. */
    method ReceiveFrames(msg: Bytes)
      requires Valid() && frameParts == [] && bytesRemaining == 0
      modifies this
      ensures Valid()
      ensures var d := Decode(maxMessageSize, old(header[..headerIndex]) + msg);
              delivered == old(delivered) + d.messages && State() == d.tail
      decreases 0
    {
      hide FromBigEndian, Decode;
      var rest := msg;
      ghost var all := Then(Decoded(delivered, Oversize), Decode(maxMessageSize, header[..headerIndex] + msg));
      while true
        invariant Valid() && frameParts == [] && bytesRemaining == 0
        invariant Then(Decoded(delivered, Oversize), Decode(maxMessageSize, header[..headerIndex] + rest)) == all
        decreases headerIndex + |rest|
      {
        ghost var stream := header[..headerIndex] + rest;
        rest := FillHeader(rest);
        if headerIndex < 4 {
          assert stream == header[..headerIndex];
          DecodeStops(maxMessageSize, stream);
          return;
        }
        headerIndex := 0;
        bytesRemaining := FromBigEndian(header);
        assert header + rest == stream && stream[..4] == header && stream[4..] == rest;
        if bytesRemaining > maxMessageSize {
          DecodeStops(maxMessageSize, stream);
          return;
        }
        ghost var n := bytesRemaining;
        if bytesRemaining == |rest| {
          DeliveredOne(maxMessageSize, stream, n, delivered);
          bytesRemaining := 0;
          delivered := delivered + [rest];
          assert stream[4..4 + n] == rest;
          assert stream[4 + n..] == [];
          DecodeStops(maxMessageSize, []);
          return;
        } else if bytesRemaining < |rest| {
          DeliveredOne(maxMessageSize, stream, n, delivered);
          assert stream[4..4 + n] == rest[..n] && stream[4 + n..] == rest[n..];
          delivered := delivered + [rest[..bytesRemaining]];
          rest := rest[bytesRemaining..];
          bytesRemaining := 0;
          assert header[..0] + rest == rest;
        } else {
          DecodeStops(maxMessageSize, stream);
          frameParts := [header + rest];
          bytesRemaining := bytesRemaining - |rest|;
          assert Joined(frameParts) == stream;
          return;
        }
      }
    }
  }

  /** Moving one whole frame from the stream to the delivered messages. */
  lemma DeliveredOne(max: nat, stream: Bytes, n: nat, sofar: seq<Bytes>)
    requires |stream| >= 4 + n && FromBigEndian(stream[..4]) == n && n <= max
    ensures Then(Decoded(sofar, Oversize), Decode(max, stream)) ==
            Then(Decoded(sofar + [stream[4..4 + n]], Oversize), Decode(max, stream[4 + n..]))
  {
    DecodeWhole(max, stream, n);
    var m, d := stream[4..4 + n], Decode(max, stream[4 + n..]);
    assert sofar + ([m] + d.messages) == (sofar + [m]) + d.messages;
  }

  // ---- Whole streams ----

  /** Feeding a stream to a new receiver chunk by chunk. */
  function ResumeAll(max: nat, tail: Tail, chunks: seq<Bytes>): Decoded
    decreases |chunks|
  {
    if chunks == [] then Decoded([], tail)
    else
      var d := Resume(max, tail, chunks[0]);
      Then(d, ResumeAll(max, d.tail, chunks[1..]))
  }

  lemma ThenAssociates(a: Decoded, b: Decoded, c: Decoded)
    ensures Then(Then(a, b), c) == Then(a, Then(b, c))
  {
    assert (a.messages + b.messages) + c.messages == a.messages + (b.messages + c.messages);
  }

  lemma NothingThen(d: Decoded, tail: Tail)
    ensures Then(Decoded([], tail), d) == d
    ensures Then(d, Decoded([], d.tail)) == d
  {
  }

  lemma ChunkJoins(max: nat, seen: Bytes, chunk: Bytes, rest: Decoded)
    ensures var d := Decode(max, seen);
            var e := Resume(max, d.tail, chunk);
            e.tail == Decode(max, seen + chunk).tail && Then(d, Then(e, rest)) == Then(Decode(max, seen + chunk), rest)
  {
    var d := Decode(max, seen);
    DecodeResumes(max, seen, chunk);
    ThenAssociates(d, Resume(max, d.tail, chunk), rest);
  }

  lemma ConcatStep(seen: Bytes, chunks: seq<Bytes>)
    requires chunks != []
    ensures seen + Concat(chunks) == (seen + chunks[0]) + Concat(chunks[1..])
  {
  }

  lemma {:induction false} ChunksResume(max: nat, seen: Bytes, chunks: seq<Bytes>, d: Decoded)
    requires d == Decode(max, seen)
    ensures Then(d, ResumeAll(max, d.tail, chunks)) == Decode(max, seen + Concat(chunks))
    decreases |chunks|
  {
    if chunks == [] {
      assert seen + [] == seen;
      NothingThen(d, Pending([]));
    } else {
      var d' := Decode(max, seen + chunks[0]);
      ChunkJoins(max, seen, chunks[0], ResumeAll(max, d'.tail, chunks[1..]));
      ChunksResume(max, seen + chunks[0], chunks[1..], d');
      ConcatStep(seen, chunks);
    }
  }

  /** However the stream is cut, the receiver delivers what the one-shot decoder finds in it. */
  lemma CutsDoNotMatter(max: nat, chunks: seq<Bytes>)
    ensures ResumeAll(max, Pending([]), chunks) == Decode(max, Concat(chunks))
  {
    ChunksResume(max, [], chunks, Decode(max, []));
    assert [] + Concat(chunks) == Concat(chunks);
    NothingThen(ResumeAll(max, Pending([]), chunks), Pending([]));
  }

  /** Messages of legal size arrive complete and in order, whatever the cuts. */
  lemma FramedMessagesArrive(max: nat, msgs: seq<Bytes>, chunks: seq<Bytes>)
    requires forall m :: m in msgs ==> |m| <= max && |m| < TWO_32
    requires Concat(chunks) == Frames(msgs)
    ensures ResumeAll(max, Pending([]), chunks) == Decoded(msgs, Pending([]))
  {
    CutsDoNotMatter(max, chunks);
    DecodeUndoesFrames(max, msgs);
    NoneOversize(max, msgs);
  }

  lemma {:induction false} NoneOversize(max: nat, msgs: seq<Bytes>)
    requires forall m :: m in msgs ==> |m| <= max
    ensures UpToOversize(max, msgs) == msgs
    decreases |msgs|
  {
    if msgs != [] { NoneOversize(max, msgs[1..]); }
  }

  /** The receiver fed with a whole list of chunks. */
  method ReceiveAll(max: nat, chunks: seq<Bytes>) returns (delivered: seq<Bytes>)
    ensures delivered == Decode(max, Concat(chunks)).messages
  {
    var fi := new FramingIface(max);
    var i := 0;
    NothingThen(ResumeAll(max, Pending([]), chunks), Pending([]));
    while i < |chunks|
      invariant 0 <= i <= |chunks| && fi.Valid() && fi.maxMessageSize == max
      invariant Then(Decoded(fi.delivered, fi.State()), ResumeAll(max, fi.State(), chunks[i..])) ==
                ResumeAll(max, Pending([]), chunks)
    {
      ghost var before := Decoded(fi.delivered, fi.State());
      fi.ReceiveMessage(chunks[i]);
      assert chunks[i..][1..] == chunks[i + 1..];
      ghost var d := Resume(max, before.tail, chunks[i]);
      ThenAssociates(before, d, ResumeAll(max, d.tail, chunks[i + 1..]));
      i := i + 1;
    }
    NothingThen(Decoded(fi.delivered, fi.State()), fi.State());
    CutsDoNotMatter(max, chunks);
    delivered := fi.delivered;
  }
}
