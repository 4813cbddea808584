/** The frames between the server and its backends: a length of two bytes, and that many bytes. */
module Framing {

  newtype byte = x: int | 0 <= x < 256

  type Stream = seq<byte>

  /** The capacity of a receive buffer. */
  const RECEIVE_CAPACITY := 65536

  // ---------- frames in a stream ----------

  /** The length field, most significant byte first. */
  function Length(frame: Stream): (n: nat)
    requires |frame| >= 2
    ensures n < 65536
  {
    frame[0] as int * 256 + frame[1] as int
  }

  /** Exactly one frame. */
  predicate Whole(frame: Stream) {
    |frame| >= 2 && |frame| == 2 + Length(frame)
  }

  /** A frame has arrived; that an empty one has arrived is only noticed with the next byte. */
  predicate Arrived(stream: Stream) {
    |stream| >= 3 && |stream| >= 2 + Length(stream)
  }

  /** The frames that have arrived, in order. */
  function FramesOf(stream: Stream): seq<Stream>
    decreases |stream|
  {
    if !Arrived(stream) then []
    else [stream[..2 + Length(stream)]] + FramesOf(stream[2 + Length(stream)..])
  }

  /** The unfinished end of a stream. */
  function RestOf(stream: Stream): Stream
    decreases |stream|
  {
    if !Arrived(stream) then stream else RestOf(stream[2 + Length(stream)..])
  }

  lemma {:induction false} FramesExtend(a: Stream, b: Stream)
    ensures FramesOf(a + b) == FramesOf(a) + FramesOf(RestOf(a) + b)
    ensures RestOf(a + b) == RestOf(RestOf(a) + b)
    decreases |a|
  {
    hide FramesOf, RestOf;
    Unfold(a);
    if Arrived(a) {
      var n := 2 + Length(a);
      assert (a + b)[..n] == a[..n] && (a + b)[n..] == a[n..] + b;
      assert Arrived(a + b) && Length(a + b) == Length(a);
      Unfold(a + b);
      FramesExtend(a[n..], b);
      var r := FramesOf(RestOf(a[n..]) + b);
      assert [a[..n]] + (FramesOf(a[n..]) + r) == [a[..n]] + FramesOf(a[n..]) + r;
    } else {
      assert [] + FramesOf(a + b) == FramesOf(a + b);
    }
  }

  lemma {:induction false} RestUnfinished(stream: Stream)
    ensures !Arrived(RestOf(stream)) && |RestOf(stream)| <= |stream|
    decreases |stream|
  {
    if Arrived(stream) {
      RestUnfinished(stream[2 + Length(stream)..]);
    }
  }

  function Join(pieces: seq<Stream>): Stream
    decreases |pieces|
  {
    if pieces == [] then [] else pieces[0] + Join(pieces[1..])
  }

  lemma {:induction false} FramesWhole(stream: Stream)
    ensures forall f :: f in FramesOf(stream) ==> Whole(f)
    decreases |stream|
  {
    if Arrived(stream) {
      var n := 2 + Length(stream);
      assert Length(stream[..n]) == Length(stream);
      FramesWhole(stream[n..]);
    }
  }

  lemma JoinFirst(piece: Stream, pieces: seq<Stream>)
    ensures Join([piece] + pieces) == piece + Join(pieces)
  {
    assert ([piece] + pieces)[1..] == pieces;
  }

  lemma Unfold(stream: Stream)
    ensures Arrived(stream) ==>
              var n := 2 + Length(stream);
              FramesOf(stream) == [stream[..n]] + FramesOf(stream[n..]) && RestOf(stream) == RestOf(stream[n..])
    ensures !Arrived(stream) ==> FramesOf(stream) == [] && RestOf(stream) == stream
  {
  }

  lemma Reassociate(a: Stream, b: Stream, c: Stream)
    ensures (a + b) + c == a + (b + c)
  {
  }

  /** Nothing is lost, doubled or reordered: the frames and the rest are the stream. */
  lemma {:induction false} FramesConserve(stream: Stream)
    ensures Join(FramesOf(stream)) + RestOf(stream) == stream
    decreases |stream|
  {
    hide FramesOf, RestOf, Length;
    Unfold(stream);
    if Arrived(stream) {
      var n := 2 + Length(stream);
      FramesConserve(stream[n..]);
      JoinFirst(stream[..n], FramesOf(stream[n..]));
      Reassociate(stream[..n], Join(FramesOf(stream[n..])), RestOf(stream[n..]));
      assert stream[..n] + stream[n..] == stream;
    } else {
      assert Join([]) == [];
    }
  }

  /** The first frame of what has arrived. */
  lemma FirstFrame(stream: Stream, n: nat)
    requires n <= |stream| && Arrived(stream) && Whole(stream[..n])
    ensures FramesOf(stream) == [stream[..n]] + FramesOf(stream[n..]) && RestOf(stream) == RestOf(stream[n..])
  {
    hide FramesOf, RestOf;
    Unfold(stream);
    assert Length(stream[..n]) == Length(stream);
  }

  lemma NoFrame(stream: Stream)
    requires !Arrived(stream)
    ensures FramesOf(stream) == [] && RestOf(stream) == stream
  {
  }

  // ---------- the parser of one frame ----------

  datatype State = HeadStart | HeadEnd | Body

  /** The parser after the beginning `prefix` of a frame: empty, one byte, or the head and some of the body. */
  predicate Coupled(state: State, length: nat, prefix: Stream) {
    match state
    case HeadStart => prefix == []
    case HeadEnd => |prefix| == 1 && length == prefix[0] as int
    case Body =>
      && |prefix| >= 2
      && length == Length(prefix) - (|prefix| - 2)
      && (length == 0 ==> |prefix| == 2)
  }

  lemma NothingLeft(all: Stream)
    ensures !Arrived(all[|all|..])
  {
  }

  /** In the body: the frame ends within the data, or all of the data belongs to it. */
  lemma BodyRead(prefix: Stream, data: Stream, p: nat, length: nat)
    requires p < |data| && Coupled(Body, length, prefix + data[..p])
    ensures Arrived(prefix + data) <==> length <= |data| - p
    ensures length <= |data| - p ==> Whole(prefix + data[..p + length])
    ensures length > |data| - p ==> Coupled(Body, length - (|data| - p), prefix + data)
  {
    var read := prefix + data[..p];
    assert prefix + data == read + data[p..];
    assert Length(prefix + data) == Length(read);
    if length <= |data| - p {
      assert prefix + data[..p + length] == read + data[p..p + length];
      assert Length(prefix + data[..p + length]) == Length(read);
    }
  }

  class FrameParser {
    var state: State
    var length: nat

    constructor ()
      ensures state == HeadStart
    {
      state, length := HeadStart, 0;
    }

    /** The parser after the beginning of a frame. */
    constructor Of(kept: Stream)
      requires !Arrived(kept)
      ensures Coupled(state, length, kept)
    {
      if kept == [] {
        state, length := HeadStart, 0;
      } else if |kept| == 1 {
        state, length := HeadEnd, kept[0] as int;
      } else {
        state, length := Body, Length(kept) - (|kept| - 2);
      }
    }

    predicate IsDone()
      reads this
    {
      state.HeadStart?
    }

    /**
     * Reads on in the current frame, up to its end or the end of the data, and says how much was read.  It is done
     * exactly when what was read completes one frame; it reads nothing only to complete an empty frame.
     */
    method Execute(data: Stream, ghost prefix: Stream) returns (n: nat)
      requires data != [] && Coupled(state, length, prefix)
      modifies this
      ensures n <= |data|
      ensures IsDone() <==> Arrived(prefix + data)
      ensures IsDone() ==> Whole(prefix + data[..n])
      ensures !IsDone() ==> n == |data| && Coupled(state, length, prefix + data)
      ensures n == 0 ==> IsDone() && old(state).Body? && old(length) == 0
    {
      var p := 0;
      while p < |data|
        invariant 0 <= p <= |data|
        invariant Coupled(state, length, prefix + data[..p])
        invariant p > 0 ==> !state.HeadStart?
        invariant state.Body? && p > 0 ==> |prefix + data[..p]| == 2
        decreases |data| - p
      {
        assert data[..p + 1] == data[..p] + [data[p]];
        match state {
        case HeadStart =>
          length := data[p] as int;
          state := HeadEnd;
        case HeadEnd =>
          length := length * 256 + data[p] as int;
          state := Body;
        case Body =>
          var left := |data| - p;
          BodyRead(prefix, data, p, length);
          if length <= left {
            p := p + length;
            length := 0;
            state := HeadStart;
          } else {
            length := length - left;
            p := |data|;
          }
          return p;
        }
        p := p + 1;
      }
      assert data[..p] == data;
      return p;
    }
  }

  // ---------- the receiver ----------

  /** The scan of `all` stands at `p`, with `offset` bytes read of the frame there. */
  predicate Scanning(all: Stream, p: nat, offset: nat, state: State, length: nat, before: seq<Stream>,
        frames: seq<Stream>) {
    && p + offset <= |all|
    && Coupled(state, length, all[p..p + offset])
    && before + FramesOf(all) == frames + FramesOf(all[p..])
    && RestOf(all) == RestOf(all[p..])
  }

  lemma ScanBegins(all: Stream, len: nat, state: State, length: nat, before: seq<Stream>)
    requires len <= |all| && Coupled(state, length, all[..len])
    ensures Scanning(all, 0, len, state, length, before, before)
  {
    assert all[0..] == all && all[0..len] == all[..len];
  }

  lemma FrameDone(all: Stream, p: nat, offset: nat, read: nat, state: State, length: nat, before: seq<Stream>,
        frames: seq<Stream>,
                  length': nat)
    requires Scanning(all, p, offset, state, length, before, frames) && p + offset + read <= |all|
    requires Whole(all[p..p + offset] + all[p + offset..][..read])
    requires Arrived(all[p..p + offset] + all[p + offset..])
    ensures Scanning(all, p + offset + read, 0, HeadStart, length', before, frames + [all[p..p + offset + read]])
  {
    hide FramesOf, RestOf, Whole, Arrived;
    var n := offset + read;
    assert all[p..p + offset] + all[p + offset..] == all[p..];
    assert all[p..p + offset] + all[p + offset..][..read] == all[p..][..n] == all[p..p + n];
    assert all[p..][n..] == all[p + n..];
    FirstFrame(all[p..], n);
  }

  lemma FrameGoesOn(all: Stream, p: nat, offset: nat, state: State, length: nat, before: seq<Stream>,
        frames: seq<Stream>,
                    state': State, length': nat)
    requires Scanning(all, p, offset, state, length, before, frames)
    requires !Arrived(all[p..p + offset] + all[p + offset..])
    requires Coupled(state', length', all[p..p + offset] + all[p + offset..])
    ensures Scanning(all, p, |all| - p, state', length', before, frames) && !Arrived(all[p..])
  {
    hide FramesOf, RestOf, Arrived, Coupled;
    assert all[p..p + offset] + all[p + offset..] == all[p..] == all[p..p + (|all| - p)];
  }

  lemma ScanEnds(all: Stream, p: nat, offset: nat, state: State, length: nat, before: seq<Stream>, frames: seq<Stream>)
    requires Scanning(all, p, offset, state, length, before, frames) && p + offset == |all| && !Arrived(all[p..])
    ensures all[p..] == RestOf(all) && frames == before + FramesOf(all) && Coupled(state, length, all[p..])
  {
    hide FramesOf, RestOf, Arrived, Coupled;
    NoFrame(all[p..]);
    assert all[p..p + offset] == all[p..];
  }

  lemma ScanCoupled(all: Stream, p: nat, offset: nat, state: State, length: nat, before: seq<Stream>,
        frames: seq<Stream>)
    requires Scanning(all, p, offset, state, length, before, frames)
    ensures p + offset <= |all| && Coupled(state, length, all[p..p + offset])
  {
  }

  lemma ArraySlices(buf: array<byte>, n: nat, p: nat, q: nat)
    requires p <= q <= n <= buf.Length
    ensures buf[p..q] == buf[..n][p..q] && buf[p..n] == buf[..n][p..]
    ensures q == n ==> buf[..n][p..q] == buf[..n][p..]
  {
  }

  class Receiver {
    const parser: FrameParser
    const buf: array<byte>
    /** How much of the buffer is kept from one call to the next. */
    var len: nat
    /** The frames handed on so far. */
    var frames: seq<Stream>
    /** Everything received so far. */
    ghost var received: Stream

    ghost predicate Valid()
      reads this, buf, parser
    {
      && buf.Length == RECEIVE_CAPACITY && len <= buf.Length
      && frames == FramesOf(received) && buf[..len] == RestOf(received)
      && Coupled(parser.state, parser.length, buf[..len])
    }

    constructor ()
      ensures Valid() && received == [] && fresh(buf) && fresh(parser)
    {
      buf := new byte[RECEIVE_CAPACITY];
      parser := new FrameParser();
      len, frames, received := 0, [], [];
      new;
      assert buf[..len] == [];
    }

    /** A connection whose buffer holds the beginning of a frame. */
    constructor Of(kept: Stream)
      requires !Arrived(kept) && |kept| <= RECEIVE_CAPACITY
      ensures Valid() && received == kept && frames == [] && fresh(buf) && fresh(parser)
      ensures buf.Length == RECEIVE_CAPACITY && len == |kept|
    {
      buf := new byte[RECEIVE_CAPACITY](i requires 0 <= i < RECEIVE_CAPACITY => if i < |kept| then kept[i] else 0);
      parser := new FrameParser.Of(kept);
      len, frames, received := |kept|, [], kept;
      new;
      assert buf[..len] == kept;
    }

    /** The bytes that arrive next are put behind the bytes kept. */
    method Arrive(chunk: Stream)
      requires buf.Length == RECEIVE_CAPACITY && len + |chunk| <= buf.Length
      modifies buf
      ensures buf[..len + |chunk|] == old(buf[..len]) + chunk
    {
      for i := 0 to |chunk|
        invariant buf[..len] == old(buf[..len])
        invariant buf[len..len + i] == chunk[..i]
      {
        buf[len + i] := chunk[i];
      }
    }

    /** The bytes from `p` on move to the front. */
    method MoveDown(p: nat, n: nat)
      requires p + n <= buf.Length
      modifies buf
      ensures buf[..n] == old(buf[p..p + n])
    {
      for i := 0 to n
        invariant buf[..i] == old(buf[p..p + i])
        invariant forall k :: p + i <= k < buf.Length ==> buf[k] == old(buf[k])
      {
        buf[i] := buf[p + i];
      }
    }

    /** One call of the frame parser; a frame that it completes is handed on. */
    method ScanOne(n: nat, p: nat, offset: nat, ghost before: seq<Stream>) returns (read: nat)
      requires n <= buf.Length && p + offset < n
      requires Scanning(buf[..n], p, offset, parser.state, parser.length, before, frames)
      modifies this`frames, parser
      ensures p + offset + read <= n
      ensures parser.IsDone() ==>
                Scanning(buf[..n], p + offset + read, 0, parser.state, parser.length, before, frames)
      ensures !parser.IsDone() ==>
                p + offset + read == n && !Arrived(buf[..n][p..])
                && Scanning(buf[..n], p, offset + read, parser.state, parser.length, before, frames)
      ensures read == 0 ==> parser.IsDone() && old(parser.state).Body? && old(parser.length) == 0
    {
      hide Scanning, Coupled, Arrived, Whole, FramesOf, RestOf;
      ghost var all, state, length := buf[..n], parser.state, parser.length;
      ArraySlices(buf, n, p + offset, n);
      ScanCoupled(all, p, offset, state, length, before, frames);
      read := parser.Execute(buf[p + offset..n], all[p..p + offset]);
      if parser.IsDone() {
        FrameDone(all, p, offset, read, state, length, before, frames, parser.length);
        ArraySlices(buf, n, p, p + offset + read);
        frames := frames + [buf[p..p + offset + read]];
      } else {
        FrameGoesOn(all, p, offset, state, length, before, frames, parser.state, parser.length);
      }
    }

    /** The driver loop, from a scan that stands at the beginning of the buffer. */
    method ScanAll(n: nat, ghost before: seq<Stream>) returns (p: nat, offset: nat)
      requires len < n <= buf.Length
      requires Scanning(buf[..n], 0, len, parser.state, parser.length, before, frames)
      modifies this`frames, parser
      ensures p + offset == n && !Arrived(buf[..n][p..])
      ensures Scanning(buf[..n], p, offset, parser.state, parser.length, before, frames)
    {
      hide Scanning, Coupled, Arrived, Whole, FramesOf, RestOf;
      p, offset := 0, len;
      var left: nat, read: nat := n - len, 0;
      while read < left
        invariant p + offset + (left - read) == n && read <= left
        invariant (read == 0 || read == left) && (left == 0 ==> offset == 0)
        invariant read == left && left > 0 ==> !Arrived(buf[..n][p..])
        invariant Scanning(buf[..n], p, offset, parser.state, parser.length, before, frames)
        decreases left - read, parser.state.Body? && parser.length == 0
      {
        read := ScanOne(n, p, offset, before);
        offset := offset + read;
        if parser.IsDone() {
          p, offset := p + offset, 0;
          left, read := left - read, 0;
        }
      }
      NothingLeft(buf[..n]);
    }

    /** All frames in the first `n` bytes of the buffer are handed on; the unfinished end lies at `p`. */
    method Scan(n: nat) returns (p: nat, offset: nat)
      requires len < n <= buf.Length && Coupled(parser.state, parser.length, buf[..len])
      modifies this`frames, parser
      ensures p + offset == n && buf[p..n] == RestOf(buf[..n])
      ensures frames == old(frames) + FramesOf(buf[..n])
      ensures Coupled(parser.state, parser.length, buf[p..n])
    {
      hide Scanning, Coupled, Arrived, FramesOf, RestOf;
      ghost var all, before := buf[..n], frames;
      assert all[..len] == buf[..len];
      ScanBegins(all, len, parser.state, parser.length, before);
      p, offset := ScanAll(n, before);
      ScanEnds(all, p, offset, parser.state, parser.length, before, frames);
      ArraySlices(buf, n, p, n);
    }

    /**
     * One read of the socket: every frame that has now arrived is handed on, in order, and the unfinished end is kept
     * at the front of the buffer.
     */
    method Receive(chunk: Stream)
      requires Valid() && chunk != [] && |chunk| <= buf.Length - len
      modifies this, buf, parser
      ensures Valid() && received == old(received) + chunk
      ensures frames == FramesOf(received) && buf[..len] == RestOf(received)
      ensures forall f :: f in frames ==> Whole(f) && |f| == 2 + f[0] as int * 256 + f[1] as int
    {
      FramesWhole(received + chunk);
      hide FramesOf, RestOf, Coupled;
      ghost var was, kept := received, buf[..len];
      Arrive(chunk);
      received := received + chunk;
      FramesExtend(was, chunk);
      var n := len + |chunk|;
      assert buf[..n] == kept + chunk;
      assert buf[..len] == buf[..n][..len] == kept;
      var p, offset := Scan(n);
      MoveDown(p, offset);
      len := offset;
    }
  }

  /** The end of a stream that is kept leaves room in the buffer, unless it is of a frame of the greatest length. */
  lemma RoomLeft(stream: Stream)
    ensures |RestOf(stream)| <= RECEIVE_CAPACITY
    ensures |RestOf(stream)| == RECEIVE_CAPACITY ==> Length(RestOf(stream)) == 65535
  {
    RestUnfinished(stream);
  }

  // ---------- messages ----------

  /** What a frame carries: the id of a connection, a time, the kind of the data, and the data. */
  datatype Message = Message(id: nat, clock: nat, kind: byte, payload: Stream)

  const U64_LIMIT := 0x1_0000_0000_0000_0000

  /** Where the data begins behind the length field: after two words of eight bytes and one byte. */
  const DATA_OFFSET := 17

  /** A word of `k` bytes as it lies in memory, least significant byte first. */
  function Word(n: nat, k: nat): (w: Stream)
    ensures |w| == k
  {
    if k == 0 then [] else [(n % 256) as byte] + Word(n / 256, k - 1)
  }

  function WordValue(w: Stream): nat {
    if w == [] then 0 else w[0] as int + 256 * WordValue(w[1..])
  }

  function Pow256(k: nat): nat {
    if k == 0 then 1 else 256 * Pow256(k - 1)
  }

  lemma {:induction false} WordRoundTrip(n: nat, k: nat)
    requires n < Pow256(k)
    ensures WordValue(Word(n, k)) == n
    decreases k
  {
    if k > 0 {
      WordRoundTrip(n / 256, k - 1);
      assert Word(n, k)[1..] == Word(n / 256, k - 1);
    }
  }

  /** Eight bytes as a number, the least significant first. */
  function Little(w: Stream): int
    requires |w| == 8
  {
    w[0] as int + 0x100 * w[1] as int + 0x1_0000 * w[2] as int + 0x100_0000 * w[3] as int
    + 0x1_0000_0000 * w[4] as int + 0x100_0000_0000 * w[5] as int + 0x1_0000_0000_0000 * w[6] as int
    + 0x100_0000_0000_0000 * w[7] as int
  }

  /**
   * A message as its bytes lie in a frame: two bytes for how many follow, the most significant first; eight for the id,
   * eight for the clock, one for the kind; and then the data.
   */
  predicate OnWire(frame: Stream, m: Message) {
    && |frame| >= 19 + |m.payload|
    && frame[0] as int * 256 + frame[1] as int == |frame| - 2
    && Little(frame[2..10]) == m.id && Little(frame[10..18]) == m.clock && frame[18] == m.kind
    && frame[19..19 + |m.payload|] == m.payload
  }

  lemma WordTail(w: Stream)
    requires w != []
    ensures WordValue(w) == w[0] as int + 256 * WordValue(w[1..])
  {
  }

  lemma LittleIs(w: Stream)
    requires |w| == 8
    ensures Little(w) == WordValue(w)
  {
    hide WordValue;
    WordTail(w);
    forall k | 0 <= k < 8 ensures WordValue(w[k..]) == w[k] as int + 256 * WordValue(w[k + 1..]) {
      WordTail(w[k..]);
      assert w[k..][1..] == w[k + 1..];
    }
    assert w[0..] == w && w[8..] == [];
    NoWord();
    assert WordValue(w[7..]) == w[7] as int;
    assert WordValue(w[6..]) == w[6] as int + 256 * WordValue(w[7..]);
    assert WordValue(w[5..]) == w[5] as int + 256 * WordValue(w[6..]);
    assert WordValue(w[4..]) == w[4] as int + 256 * WordValue(w[5..]);
    assert WordValue(w[3..]) == w[3] as int + 256 * WordValue(w[4..]);
    assert WordValue(w[2..]) == w[2] as int + 256 * WordValue(w[3..]);
    assert WordValue(w[1..]) == w[1] as int + 256 * WordValue(w[2..]);
  }

  lemma NoWord()
    ensures WordValue([]) == 0
  {
  }

  /** A message that a frame can carry, with the size `h` of the head structure, padding and all. */
  predicate Fits(m: Message, h: nat) {
    m.id < U64_LIMIT && m.clock < U64_LIMIT && DATA_OFFSET <= h && h + |m.payload| < 65535
  }

  /** The length field and the head structure up to the data. */
  function HeadOf(m: Message, length: nat): (head: Stream)
    requires length < 65536
    ensures |head| == 2 + DATA_OFFSET
  {
    [(length / 256) as byte, (length % 256) as byte] + Word(m.id, 8) + Word(m.clock, 8) + [m.kind]
  }

  /**
   * The frame of a message.  The length counts the padding of the head, but the data begins before it: the slack is at
   * the end.
   */
  function Encode(m: Message, slack: Stream): Stream
    requires Fits(m, DATA_OFFSET + |slack|)
  {
    HeadOf(m, DATA_OFFSET + |slack| + |m.payload|) + m.payload + slack
  }

  /** What the receiver takes a frame to carry. */
  function Decode(frame: Stream, h: nat): Message
    requires Whole(frame) && DATA_OFFSET <= h && |frame| >= 2 + h
  {
    var size := |frame| - 2 - h;
    Message(WordValue(frame[2..10]), WordValue(frame[10..18]), frame[18],
          frame[2 + DATA_OFFSET..2 + DATA_OFFSET + size])
  }

  lemma DecodeEncode(m: Message, slack: Stream)
    requires Fits(m, DATA_OFFSET + |slack|)
    ensures var frame := Encode(m, slack);
            Whole(frame) && |frame| >= 2 + DATA_OFFSET + |slack| && Decode(frame, DATA_OFFSET + |slack|) == m
  {
    var frame := Encode(m, slack);
    assert frame[2..10] == Word(m.id, 8);
    assert frame[10..18] == Word(m.clock, 8);
    assert frame[2 + DATA_OFFSET..2 + DATA_OFFSET + |m.payload|] == m.payload;
    assert Pow256(4) == 0x1_0000_0000;
    assert Pow256(8) == U64_LIMIT;
    WordRoundTrip(m.id, 8);
    WordRoundTrip(m.clock, 8);
  }

  /** Where id, clock, kind and data lie in the frame of a message. */
  lemma EncodeBytes(m: Message, slack: Stream)
    requires Fits(m, DATA_OFFSET + |slack|)
    ensures OnWire(Encode(m, slack), m) && |Encode(m, slack)| == 19 + |m.payload| + |slack|
  {
    var frame := Encode(m, slack);
    assert frame[2..10] == Word(m.id, 8);
    assert frame[10..18] == Word(m.clock, 8);
    assert frame[19..19 + |m.payload|] == m.payload;
    assert Pow256(4) == 0x1_0000_0000;
    assert Pow256(8) == U64_LIMIT;
    WordRoundTrip(m.id, 8);
    WordRoundTrip(m.clock, 8);
    LittleIs(Word(m.id, 8));
    LittleIs(Word(m.clock, 8));
  }

  /** And from where a receiver takes them, whatever frame it is. */
  lemma DecodeBytes(frame: Stream, h: nat)
    requires Whole(frame) && DATA_OFFSET <= h && |frame| >= 2 + h
    ensures OnWire(frame, Decode(frame, h)) && |Decode(frame, h).payload| == |frame| - 2 - h
  {
    LittleIs(frame[2..10]);
    LittleIs(frame[10..18]);
  }

  function EncodeAll(ms: seq<Message>, slacks: seq<Stream>, h: nat): Stream
    requires |slacks| == |ms|
    requires forall i :: 0 <= i < |ms| ==> Fits(ms[i], h) && DATA_OFFSET + |slacks[i]| == h
    decreases |ms|
  {
    if ms == [] then [] else Encode(ms[0], slacks[0]) + EncodeAll(ms[1..], slacks[1..], h)
  }

  function DecodeAll(frames: seq<Stream>, h: nat): seq<Message>
    requires DATA_OFFSET <= h && forall i :: 0 <= i < |frames| ==> Whole(frames[i]) && |frames[i]| >= 2 + h
    decreases |frames|
  {
    if frames == [] then [] else [Decode(frames[0], h)] + DecodeAll(frames[1..], h)
  }

  /**
   * Whatever the padding contains, the frames of any list of messages, followed by the beginning of another frame, are
   * split into exactly those frames, which decode to the messages in order, and that beginning is what is kept.  The
   * receiver splits a stream in this way however it is cut into reads.
   */
  lemma {:induction false} RoundTrip(ms: seq<Message>, slacks: seq<Stream>, h: nat, tail: Stream)
    requires |slacks| == |ms| && DATA_OFFSET <= h && !Arrived(tail)
    requires forall i :: 0 <= i < |ms| ==> Fits(ms[i], h) && DATA_OFFSET + |slacks[i]| == h
    ensures var stream := EncodeAll(ms, slacks, h) + tail;
            && (forall f :: f in FramesOf(stream) ==> Whole(f) && 2 + h <= |f| < 65537)
            && DecodeAll(FramesOf(stream), h) == ms
            && RestOf(stream) == tail
    decreases |ms|
  {
    hide Encode, Decode, Whole, Arrived, Fits;
    if ms == [] {
      assert EncodeAll(ms, slacks, h) + tail == tail;
      NoFrame(tail);
    } else {
      var first, rest := Encode(ms[0], slacks[0]), EncodeAll(ms[1..], slacks[1..], h) + tail;
      var stream := EncodeAll(ms, slacks, h) + tail;
      assert stream == first + rest;
      DecodeEncode(ms[0], slacks[0]);
      EncodeSize(ms[0], slacks[0]);
      WholeArrives(first, rest);
      assert stream[..|first|] == first && stream[|first|..] == rest;
      FirstFrame(stream, |first|);
      RoundTrip(ms[1..], slacks[1..], h, tail);
      assert ([first] + FramesOf(rest))[1..] == FramesOf(rest);
    }
  }

  lemma EncodeSize(m: Message, slack: Stream)
    requires Fits(m, DATA_OFFSET + |slack|)
    ensures |Encode(m, slack)| < 65537
  {
  }

  lemma WholeArrives(frame: Stream, rest: Stream)
    requires Whole(frame) && |frame| > 2
    ensures Arrived(frame + rest)
  {
    assert Length(frame + rest) == Length(frame);
  }

  /** No frame of a stream, finished or not, has the greatest length. */
  predicate Moderate(stream: Stream) {
    && (forall f :: f in FramesOf(stream) && |f| >= 2 ==> Length(f) < 65535)
    && (|RestOf(stream)| >= 2 ==> Length(RestOf(stream)) < 65535)
  }

  /** The length that an unfinished frame announces is that of a frame of the whole stream. */
  lemma Announced(a: Stream, b: Stream)
    requires |RestOf(a)| >= 2
    ensures (exists f :: f in FramesOf(a + b) && |f| >= 2 && Length(f) == Length(RestOf(a)))
         || (|RestOf(a + b)| >= 2 && Length(RestOf(a + b)) == Length(RestOf(a)))
  {
    FramesExtend(a, b);
    var r := RestOf(a);
    assert Length(r + b) == Length(r);
    if Arrived(r + b) {
      var f := (r + b)[..2 + Length(r + b)];
      assert FramesOf(r + b)[0] == f && Length(f) == Length(r);
      assert f in FramesOf(a + b);
    }
  }

  /** Then the buffer always has room for the next byte. */
  lemma AlwaysRoom(a: Stream, b: Stream)
    requires Moderate(a + b)
    ensures |RestOf(a)| < RECEIVE_CAPACITY
  {
    hide FramesOf, RestOf;
    RoomLeft(a);
    if |RestOf(a)| >= 2 {
      Announced(a, b);
    }
  }

  /** A stream that is read in any cuts the buffer has room for: in the end all its frames have been handed on. */
  method ReceiveStream(receiver: Receiver, stream: Stream)
    requires receiver.Valid() && Moderate(receiver.received + stream)
    modifies receiver, receiver.buf, receiver.parser
    ensures receiver.Valid() && receiver.received == old(receiver.received) + stream
    ensures receiver.frames == FramesOf(receiver.received) && receiver.buf[..receiver.len] == RestOf(receiver.received)
  {
    hide Moderate, FramesOf, RestOf, Receiver.Valid;
    var i := 0;
    ghost var was := receiver.received;
    assert was + stream[..0] == was;
    while i < |stream|
      invariant 0 <= i <= |stream| && receiver.Valid() && receiver.received == was + stream[..i]
    {
      Kept(receiver);
      assert was + stream[..i] + stream[i..] == was + stream;
      AlwaysRoom(was + stream[..i], stream[i..]);
      var n: nat :| 0 < n <= |stream| - i && n <= receiver.buf.Length - receiver.len;
      assert stream[..i + n] == stream[..i] + stream[i..i + n];
      receiver.Receive(stream[i..i + n]);
      i := i + n;
    }
    assert stream[..|stream|] == stream;
    Kept(receiver);
  }

  /**
   * From end to end: the frames of any messages, with whatever in their padding, and the beginning of another frame,
   * cut in any way and received, are decoded to exactly these messages in order, and that beginning is what the buffer
   * keeps.
   */
  method ReceiveMessages(receiver: Receiver, ms: seq<Message>, slacks: seq<Stream>, h: nat, tail: Stream)
    requires receiver.Valid() && receiver.received == []
    requires |slacks| == |ms| && DATA_OFFSET <= h
    requires forall i :: 0 <= i < |ms| ==> Fits(ms[i], h) && DATA_OFFSET + |slacks[i]| == h
    requires !Arrived(tail) && (|tail| >= 2 ==> Length(tail) < 65535)
    modifies receiver, receiver.buf, receiver.parser
    ensures receiver.Valid()
    ensures forall f :: f in receiver.frames ==> Whole(f) && |f| >= 2 + h
    ensures DecodeAll(receiver.frames, h) == ms && receiver.buf[..receiver.len] == tail
  {
    hide FramesOf, RestOf, Receiver.Valid, Fits, Arrived, EncodeAll, DecodeAll;
    var stream := EncodeAll(ms, slacks, h) + tail;
    RoundTrip(ms, slacks, h, tail);
    assert receiver.received + stream == stream;
    forall f | f in FramesOf(stream) ensures Length(f) < 65535 {
      assert Whole(f);
    }
    ReceiveStream(receiver, stream);
  }

  lemma Kept(receiver: Receiver)
    requires receiver.Valid()
    ensures receiver.buf.Length == RECEIVE_CAPACITY && receiver.len <= receiver.buf.Length
    ensures receiver.len == |RestOf(receiver.received)| && receiver.buf[..receiver.len] == RestOf(receiver.received)
    ensures receiver.frames == FramesOf(receiver.received)
  {
  }

  // ---------- the sender ----------

  class Sender {
    var buf: array<byte>

    constructor (capacity: nat)
      ensures fresh(buf) && buf.Length == capacity
    {
      buf := new byte[capacity];
    }

    method Put(at: nat, bytes: Stream)
      requires at + |bytes| <= buf.Length
      modifies buf
      ensures buf[..at + |bytes|] == old(buf[..at]) + bytes
    {
      for i := 0 to |bytes|
        invariant buf[..at + i] == old(buf[..at]) + bytes[..i]
      {
        buf[at + i] := bytes[i];
      }
    }

    method PutHead(m: Message, length: nat)
      requires length < 65536 && buf.Length >= 2 + DATA_OFFSET
      modifies buf
      ensures buf[..2 + DATA_OFFSET] == HeadOf(m, length)
    {
      Put(0, [(length / 256) as byte, (length % 256) as byte]);
      assert buf[..0] == [];
      hide Word;
      Put(2, Word(m.id, 8));
      Put(10, Word(m.clock, 8));
      Put(18, [m.kind]);
    }

    /**
     * The frame of a message is built in the buffer, which grows if it is too small.  What is sent is the encoding of
     * the message, with whatever the buffer held as the slack at its end.
     */
    method Write(m: Message, h: nat) returns (len: nat)
      requires Fits(m, h)
      modifies this, buf
      ensures buf == old(buf) || fresh(buf)
      ensures len == 2 + h + |m.payload| <= buf.Length
      ensures DATA_OFFSET <= h && buf[..len] == Encode(m, buf[2 + DATA_OFFSET + |m.payload|..len])
      ensures OnWire(buf[..len], m)
    {
      hide HeadOf, OnWire;
      len := 2 + h + |m.payload|;
      if buf.Length < len {
        buf := new byte[len];
      }
      PutHead(m, h + |m.payload|);
      Put(2 + DATA_OFFSET, m.payload);
      assert buf[..len] == buf[..2 + DATA_OFFSET + |m.payload|] + buf[2 + DATA_OFFSET + |m.payload|..len];
      EncodeBytes(m, buf[2 + DATA_OFFSET + |m.payload|..len]);
    }
  }
}
