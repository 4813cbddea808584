/** Bodies: a chunked body is decoded to what was encoded, and a body of declared length is delivered to the byte. */
module HttpBody {
  import opened HttpTypes
  import opened HttpStep
  import opened HttpRun
  import opened HttpFragment
  import opened HttpBulk
  import opened HttpMessage

  const CRLF: Bytes := [CR, LF]

  /** What the body callbacks have received, joined. */
  function BodyOf(log: Log): Bytes
    decreases |log|
  {
    if log == [] then []
    else
      var e := log[|log| - 1];
      BodyOf(log[..|log| - 1]) + (if e.Data? && e.kind.BodyKind? then e.bytes else [])
  }

  lemma BodyOfEmit(log: Log, piece: Bytes)
    ensures BodyOf(Emit(log, BodyKind, piece)) == BodyOf(log) + piece
  {
    var e := Emit(log, BodyKind, piece);
    if |e| == |log| {
      assert e[..|e| - 1] == log[..|log| - 1];
    } else {
      assert e[..|e| - 1] == log;
    }
  }

  lemma BodyOfNote(log: Log, n: Notice)
    ensures BodyOf(log + [Note(n)]) == BodyOf(log)
  {
    assert (log + [Note(n)])[..|log|] == log;
  }

  // ---------- encoding ----------

  /** A chunk as a sender may write it: the size in some spelling, perhaps an extension, and the data. */
  datatype Chunk = Chunk(digits: Bytes, extension: Bytes, data: Bytes)

  ghost predicate WellFormed(c: Chunk) {
    && c.digits != [] && AllHex(c.digits) && Hexadecimal(c.digits) == |c.data|
    && 0 < |c.data| <= ULLONG_MAX - 16
    && (c.extension != [] ==> c.extension[0] == ';' || c.extension[0] == ' ')
    && CR !in c.extension
    && |c.digits| + |c.extension| + 2 <= MAX_HEADER_SIZE
  }

  function EncodeChunk(c: Chunk): Bytes {
    c.digits + c.extension + CRLF + c.data + CRLF
  }

  function EncodeChunks(chunks: seq<Chunk>): Bytes
    decreases |chunks|
  {
    if chunks == [] then [] else EncodeChunk(chunks[0]) + EncodeChunks(chunks[1..])
  }

  /** The chunks, the last chunk of size zero, and no trailers. */
  function Encode(chunks: seq<Chunk>): Bytes {
    EncodeChunks(chunks) + (['0'] + CRLF + CRLF)
  }

  function Joined(chunks: seq<Chunk>): Bytes
    decreases |chunks|
  {
    if chunks == [] then [] else chunks[0].data + Joined(chunks[1..])
  }

  // ---------- decoding one chunk ----------

  /** A parser that expects a chunk size. */
  predicate AwaitsChunk(s: Sim) {
    !Halted(s) && s.parser.state.ChunkSizeStart? && s.parser.nread == 0 && s.view.mark.NoMark?
  }

  function AfterChunk(s: Sim, c: Chunk): Sim {
    Sim(s.parser.(contentLength := 0),
        View(Emit(s.view.log + [Note(ChunkHeader)], BodyKind, c.data) + [Note(ChunkComplete)], NoMark),
        s.consumed + |EncodeChunk(c)|, false)
  }

  lemma RunCRLF(s: Sim)
    ensures Run(s, CRLF) == StepByte(StepByte(s, CR), LF)
  {
    hide StepByte;
    RunConcat(s, [CR], [LF]);
    assert [CR] + [LF] == CRLF;
    RunOne(s, CR);
    RunOne(StepByte(s, CR), LF);
  }

  lemma ExtensionStep(s: Sim, ch: Byte)
    requires !Halted(s) && s.view.mark.NoMark? && s.parser.nread < MAX_HEADER_SIZE && ch != CR
    requires s.parser.state.ChunkParameters? || (s.parser.state.ChunkSize? && (ch == ';' || ch == ' '))
    ensures StepByte(s, ch) == Moved(s, ChunkParameters, 1)
  {
  }

  /** The rest of the size line: an extension is skipped, and CR awaited. */
  lemma {:induction false} ExtensionRun(s: Sim, ext: Bytes)
    requires !Halted(s) && s.view.mark.NoMark? && s.parser.nread + |ext| <= MAX_HEADER_SIZE && CR !in ext
    requires s.parser.state.ChunkSize? && ext != [] && (ext[0] == ';' || ext[0] == ' ')
    ensures Run(s, ext) == Moved(s, ChunkParameters, |ext|)
    decreases |ext|
  {
    hide StepByte;
    var n := |ext| - 1;
    if n == 0 {
      assert ext == [ext[0]];
      RunOne(s, ext[0]);
      ExtensionStep(s, ext[0]);
    } else {
      ExtensionRun(s, ext[..n]);
      assert ext[n] in ext;
      ExtensionStep(Run(s, ext[..n]), ext[n]);
    }
  }

  lemma SizeCR(s: Sim)
    requires !Halted(s) && s.view.mark.NoMark? && s.parser.nread < MAX_HEADER_SIZE
    requires s.parser.state.ChunkSize? || s.parser.state.ChunkParameters?
    ensures StepByte(s, CR) == Moved(s, ChunkSizeAlmostDone, 1)
  {
  }

  lemma SizeLF(s: Sim)
    requires !Halted(s) && s.view.mark.NoMark? && s.parser.nread < MAX_HEADER_SIZE
        && s.parser.state.ChunkSizeAlmostDone?
    ensures var p := s.parser.(nread := 0);
            StepByte(s, LF) ==
            Sim(if p.contentLength == 0 then p.(state := HeaderFieldStart, flags := p.flags.(trailing := true))
                else p.(state := ChunkData),
                s.view.(log := s.view.log + [Note(ChunkHeader)]), s.consumed + 1, false)
  {
  }

  lemma SizeLineEnds(s: Sim)
    requires !Halted(s) && s.view.mark.NoMark? && s.parser.nread + 2 <= MAX_HEADER_SIZE
    requires s.parser.state.ChunkSize? || s.parser.state.ChunkParameters?
    ensures var p := s.parser.(nread := 0);
            Run(s, CRLF) ==
            Sim(if p.contentLength == 0 then p.(state := HeaderFieldStart, flags := p.flags.(trailing := true))
                else p.(state := ChunkData),
                s.view.(log := s.view.log + [Note(ChunkHeader)]), s.consumed + 2, false)
  {
    hide StepByte, Run;
    RunCRLF(s);
    SizeCR(s);
    SizeLF(StepByte(s, CR));
  }

  lemma DataEnds(s: Sim)
    requires !Halted(s) && s.parser.state.ChunkDataAlmostDone? && s.view.mark.Open? && s.view.mark.kind.BodyKind?
    ensures Run(s, CRLF) ==
            Sim(s.parser.(state := ChunkSizeStart, nread := 0),
                View(Emit(s.view.log, BodyKind, s.view.mark.run) + [Note(ChunkComplete)], NoMark), s.consumed + 2,
                    false)
  {
    hide Emit, Run;
    RunCRLF(s);
    assert StepByte(s, CR) ==
           Sim(s.parser.(state := ChunkDataDone), View(Emit(s.view.log, BodyKind, s.view.mark.run), NoMark),
               s.consumed + 1, false);
  }

  lemma SizeLine(s: Sim, c: Chunk)
    requires AwaitsChunk(s) && WellFormed(c)
    ensures Run(s, c.digits + c.extension + CRLF) ==
            Sim(s.parser.(state := ChunkData, contentLength := |c.data|),
                s.view.(log := s.view.log + [Note(ChunkHeader)]), s.consumed + |c.digits| + |c.extension| + 2, false)
  {
    hide StepByte, Run, Unhex;
    ChunkSizeExact(s, c.digits);
    HexGrows(c.digits);
    var s1 := Run(s, c.digits);
    RunConcat(s, c.digits, c.extension);
    if c.extension == [] {
      RunNothing(s1);
    } else {
      ExtensionRun(s1, c.extension);
    }
    RunConcat(s, c.digits + c.extension, CRLF);
    SizeLineEnds(Run(s1, c.extension));
  }

  lemma OneChunk(s: Sim, c: Chunk)
    requires AwaitsChunk(s) && WellFormed(c)
    ensures Run(s, EncodeChunk(c)) == AfterChunk(s, c)
  {
    hide StepByte, Run, Emit;
    var line := c.digits + c.extension + CRLF;
    var s1 := Run(s, line);
    SizeLine(s, c);
    RunConcat(s, line, c.data);
    ChunkRun(s1, c.data);
    RunConcat(s, line + c.data, CRLF);
    DataEnds(Run(s, line + c.data));
  }

  // ---------- decoding a body ----------

  function AfterChunks(s: Sim, chunks: seq<Chunk>): Sim
    decreases |chunks|
  {
    if chunks == [] then s else AfterChunks(AfterChunk(s, chunks[0]), chunks[1..])
  }

  lemma ChunkBody(s: Sim, c: Chunk)
    ensures BodyOf(AfterChunk(s, c).view.log) == BodyOf(s.view.log) + c.data
  {
    hide Emit, EncodeChunk, BodyOf;
    BodyOfNote(s.view.log, ChunkHeader);
    BodyOfEmit(s.view.log + [Note(ChunkHeader)], c.data);
    BodyOfNote(Emit(s.view.log + [Note(ChunkHeader)], BodyKind, c.data), ChunkComplete);
  }

  /** What is left after one chunk awaits the next. */
  lemma ChunkLeaves(s: Sim, c: Chunk)
    requires AwaitsChunk(s)
    ensures var r := AfterChunk(s, c);
            AwaitsChunk(r) && r.parser == s.parser.(contentLength := 0) && r.consumed == s.consumed + |EncodeChunk(c)|
  {
    hide Emit, EncodeChunk;
  }

  lemma {:induction false} ChunksRun(s: Sim, chunks: seq<Chunk>)
    requires AwaitsChunk(s) && forall c :: c in chunks ==> WellFormed(c)
    ensures var r := AfterChunks(s, chunks);
            && Run(s, EncodeChunks(chunks)) == r && AwaitsChunk(r)
            && r.parser == s.parser.(contentLength := r.parser.contentLength)
            && r.consumed == s.consumed + |EncodeChunks(chunks)|
            && BodyOf(r.view.log) == BodyOf(s.view.log) + Joined(chunks)
    decreases |chunks|
  {
    hide StepByte, Run, Emit, EncodeChunk, BodyOf, AfterChunk, AwaitsChunk, WellFormed;
    if chunks == [] {
      RunNothing(s);
    } else {
      var c := chunks[0];
      OneChunk(s, c);
      ChunkLeaves(s, c);
      ChunkBody(s, c);
      RunConcat(s, EncodeChunk(c), EncodeChunks(chunks[1..]));
      ChunksRun(AfterChunk(s, c), chunks[1..]);
    }
  }

  /** After the chunks: the last chunk is told, and then the message is complete. */
  function AfterBody(s: Sim): Sim {
    var p := s.parser;
    Sim(p.(contentLength := 0, nread := 2, flags := p.flags.(trailing := true), state := NewMessage(p)),
        View(s.view.log + [Note(ChunkHeader), Note(ChunkComplete), Note(MessageComplete)], NoMark), s.consumed + 5,
            p.upgrade)
  }

  lemma LastChunk(s: Sim)
    requires AwaitsChunk(s)
    ensures Run(s, ['0'] + CRLF + CRLF) == AfterBody(s)
  {
    hide StepByte, Run, Unhex;
    ZeroDigit();
    ChunkSizeExact(s, ['0']);
    var s1 := Run(s, ['0']);
    RunConcat(s, ['0'], CRLF);
    SizeLineEnds(s1);
    RunConcat(s, ['0'] + CRLF, CRLF);
    TrailerEnds(Run(s, ['0'] + CRLF));
    var l := s.view.log;
    assert l + [Note(ChunkHeader)] + [Note(ChunkComplete), Note(MessageComplete)]
        == l + [Note(ChunkHeader), Note(ChunkComplete), Note(MessageComplete)];
    NewMessageSame(s.parser);
  }

  lemma ZeroDigit()
    ensures AllHex(['0']) && Hexadecimal(['0']) == 0 && Hexadecimal(['0'][..0]) == 0
  {
    UnhexIs('0');
    assert ['0'][..0] == [];
  }

  lemma NewMessageSame(p: Parser)
    ensures NewMessage(p.(contentLength := 0, nread := 2, flags := p.flags.(trailing := true), state := MessageDone))
        == NewMessage(p)
  {
  }

  lemma TrailerCR(s: Sim)
    requires !Halted(s) && s.view.mark.NoMark? && s.parser.state.HeaderFieldStart? && s.parser.nread < MAX_HEADER_SIZE
    ensures StepByte(s, CR) == Moved(s, HeadersAlmostDone, 1)
  {
    hide Token;
  }

  lemma TrailerLF(s: Sim)
    requires !Halted(s) && s.view.mark.NoMark? && s.parser.state.HeadersAlmostDone? && s.parser.flags.trailing
        && s.parser.nread < MAX_HEADER_SIZE
    ensures var q := s.parser.(nread := s.parser.nread + 1, state := MessageDone);
            StepByte(s, LF) ==
            Sim(q.(state := NewMessage(q)), s.view.(log := s.view.log + [Note(ChunkComplete), Note(MessageComplete)]),
                s.consumed + 1, q.upgrade)
  {
    hide NewMessage;
    var acts := [Tell(ChunkComplete), Tell(MessageComplete)];
    TwoNotes(s.view);
    var q := s.parser.(nread := s.parser.nread + 1, state := MessageDone);
    assert [Tell(ChunkComplete)] + [Tell(MessageComplete)] == acts;
    assert Dispatch(Count(s.parser), LF) == Out(q.(state := NewMessage(q)), acts, q.upgrade);
    hide Dispatch, PerformAll;
  }

  lemma TwoNotes(v: View)
    ensures PerformAll(v, [Tell(ChunkComplete), Tell(MessageComplete)], LF)
        == v.(log := v.log + [Note(ChunkComplete), Note(MessageComplete)])
  {
    var acts := [Tell(ChunkComplete), Tell(MessageComplete)];
    assert acts[1..] == [Tell(MessageComplete)] && acts[1..][1..] == [];
    var l := v.log;
    assert l + [Note(ChunkComplete)] + [Note(MessageComplete)] == l + [Note(ChunkComplete), Note(MessageComplete)];
    assert PerformAll(v, acts, LF) == PerformAll(Perform(v, acts[0], LF), acts[1..], LF);
  }

  lemma TrailerEnds(s: Sim)
    requires !Halted(s) && s.view.mark.NoMark? && s.parser.state.HeaderFieldStart? && s.parser.flags.trailing
        && s.parser.nread == 0
    ensures var q := s.parser.(nread := 2, state := MessageDone);
            Run(s, CRLF) == Sim(q.(state := NewMessage(q)),
                  s.view.(log := s.view.log + [Note(ChunkComplete), Note(MessageComplete)]), s.consumed + 2, q.upgrade)
  {
    hide StepByte, Run, NewMessage;
    RunCRLF(s);
    TrailerCR(s);
    TrailerLF(StepByte(s, CR));
  }

  lemma BodyRuns(s: Sim, chunks: seq<Chunk>)
    requires AwaitsChunk(s) && forall c :: c in chunks ==> WellFormed(c)
    ensures Run(s, Encode(chunks)) == AfterBody(AfterChunks(s, chunks))
  {
    hide StepByte, Run, AfterBody;
    ChunksRun(s, chunks);
    RunConcat(s, EncodeChunks(chunks), ['0'] + CRLF + CRLF);
    LastChunk(AfterChunks(s, chunks));
  }

  /**
   * Chunked decoding inverts chunked encoding: for every split of a body into chunks, every spelling of their sizes and
   * every cut of the encoding into pieces, the body callbacks receive exactly the body, the message is complete once,
   * at the end, and every byte is consumed.
   */
  lemma ChunkedRoundTrip(p: Parser, log: Log, chunks: seq<Chunk>, pieces: seq<Bytes>)
    requires p.errno == OK && p.state.ChunkSizeStart? && p.nread == 0
    requires forall c :: c in chunks ==> WellFormed(c)
    requires Concat(pieces) == Encode(chunks) && forall i :: 0 <= i < |pieces| ==> pieces[i] != []
    ensures var r := Feed(p, log, pieces);
            && r.parser.errno == OK && RequestIsDone(r.parser) && r.consumed == |Encode(chunks)|
            && BodyOf(r.log) == BodyOf(log) + Joined(chunks)
            && r.log == AfterChunks(Enter(p, log), chunks).view.log + [Note(ChunkHeader), Note(ChunkComplete),
                  Note(MessageComplete)]
  {
    hide StepByte, Run, Feed, Lost, BodyOf, AfterChunks;
    NotEmpty(chunks, pieces);
    FragmentationIndependence(p, log, pieces);
    var s := Enter(p, log);
    BodyRuns(s, chunks);
    ChunksRun(s, chunks);
    var l := AfterChunks(s, chunks).view.log;
    BodyOfNote(l, ChunkHeader);
    BodyOfNote(l + [Note(ChunkHeader)], ChunkComplete);
    BodyOfNote(l + [Note(ChunkHeader)] + [Note(ChunkComplete)], MessageComplete);
    assert l + [Note(ChunkHeader)] + [Note(ChunkComplete)] + [Note(MessageComplete)]
        == l + [Note(ChunkHeader), Note(ChunkComplete), Note(MessageComplete)];
  }

  lemma NotEmpty(chunks: seq<Chunk>, pieces: seq<Bytes>)
    requires Concat(pieces) == Encode(chunks)
    ensures pieces != [] && Encode(chunks) != []
  {
    assert |Encode(chunks)| >= 5;
  }

  /** A body of declared length: the callbacks receive exactly that many bytes, and then the message is complete. */
  lemma DeclaredLengthDelivered(p: Parser, log: Log, body: Bytes, pieces: seq<Bytes>)
    requires p.errno == OK && p.state.BodyIdentity? && body != [] && |body| == p.contentLength
    requires Concat(pieces) == body && forall i :: 0 <= i < |pieces| ==> pieces[i] != []
    ensures var r := Feed(p, log, pieces);
            && r.parser == p.(contentLength := 0, state := NewMessage(p)) && r.consumed == |body|
            && r.log == Emit(log, BodyKind, body) + [Note(MessageComplete)]
            && BodyOf(r.log) == BodyOf(log) + body
  {
    hide StepByte, Run, Feed, Lost, BodyOf, Emit;
    if pieces == [] {
      assert false;
    }
    FragmentationIndependence(p, log, pieces);
    BodyRun(Enter(p, log), body);
    BodyOfEmit(log, body);
    BodyOfNote(Emit(log, BodyKind, body), MessageComplete);
  }

  // ---------- the usual spelling of a size ----------

  function HexDigit(d: nat): Byte
    requires d < 16
  {
    if d < 10 then (d + '0' as int) as char else (d - 10 + 'a' as int) as char
  }

  function ToHex(n: nat): (digits: Bytes)
    ensures digits != []
  {
    if n < 16 then [HexDigit(n)] else ToHex(n / 16) + [HexDigit(n % 16)]
  }

  lemma DigitSpells(d: nat)
    requires d < 16
    ensures HexValue(HexDigit(d)) == d
  {
    UnhexIs(HexDigit(d));
  }

  lemma {:induction false} ToHexSpells(n: nat)
    ensures AllHex(ToHex(n)) && Hexadecimal(ToHex(n)) == n
  {
    hide HexValue, Unhex;
    DigitSpells(n % 16);
    if n < 16 {
      assert [HexDigit(n)][..0] == [];
    } else {
      ToHexSpells(n / 16);
      assert ToHex(n)[..|ToHex(n)| - 1] == ToHex(n / 16);
    }
  }

  function Pow16(k: nat): nat {
    if k == 0 then 1 else 16 * Pow16(k - 1)
  }

  lemma {:induction false} ToHexLength(n: nat, k: nat)
    requires k > 0 && n < Pow16(k)
    ensures |ToHex(n)| <= k
    decreases k
  {
    if n >= 16 {
      assert k > 1;
      ToHexLength(n / 16, k - 1);
    }
  }

  /** Every size that the parser can hold has a spelling that it accepts: any chunk of data can be encoded. */
  lemma EveryChunk(data: Bytes)
    requires 0 < |data| <= ULLONG_MAX - 16
    ensures WellFormed(Chunk(ToHex(|data|), [], data))
  {
    ToHexSpells(|data|);
    assert Pow16(4) == 0x1_0000;
    assert Pow16(8) == 0x1_0000_0000;
    assert Pow16(12) == 0x1_0000_0000_0000;
    assert Pow16(16) == 0x1_0000_0000_0000_0000;
    ToHexLength(|data|, 16);
  }
}
