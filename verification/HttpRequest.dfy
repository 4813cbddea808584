/** Whole requests, one and several in a row: what the callbacks receive, and what becomes of the connection. */
module HttpRequest {
  import opened HttpTypes
  import opened HttpStep
  import opened HttpRun
  import opened HttpFragment
  import opened HttpMethod
  import opened HttpBulk
  import opened HttpBody
  import opened HttpHeaders
  import opened HttpHead
  import opened HttpLine

  // ---------- requests ----------

  datatype Content = NoContent | Declared(data: Bytes) | InChunks(chunks: seq<Chunk>)

  datatype Request = Request(line: RequestLine, headers: seq<Header>, bare: bool, content: Content)

  function HeadText(r: Request): Bytes
    requires WellLine(r.line)
  {
    LineText(r.line) + HeadersText(r.headers) + EndOfLine(r.bare)
  }

  function ContentText(c: Content): Bytes {
    match c
    case NoContent => []
    case Declared(data) => data
    case InChunks(chunks) => Encode(chunks)
  }

  function RequestText(r: Request): Bytes
    requires WellLine(r.line)
  {
    HeadText(r) + ContentText(r.content)
  }

  /** How the length of a content is found. */
  datatype Frame = Refuse | Nothing | ByLength | ByChunks

  /** The rule: two ways to declare a length, or a coding that is not `chunked` at last, are refused. */
  function FrameFor(connect: bool, upgrade: bool, coded: bool, chunked: bool, length: int): Frame {
    if coded && length != ULLONG_MAX then Refuse
    else if connect then Nothing
    else if chunked then ByChunks
    else if coded && !upgrade then Refuse
    else if length != ULLONG_MAX && length > 0 then ByLength
    else Nothing
  }

  /** The connection is to be handed over: by CONNECT, or by an Upgrade header that the Connection header names. */
  ghost predicate HandsOver(r: Request)
    requires WellLine(r.line)
  {
    WordNumber(r.line.verb) == "CONNECT" || (IsUpgraded(r.headers) && Wants(r.headers, "upgrade"))
  }

  ghost function FrameOf(r: Request): Frame
    requires WellLine(r.line)
  {
    FrameFor(WordNumber(r.line.verb) == "CONNECT", HandsOver(r), IsCoded(r.headers), IsChunked(r.headers),
             DeclaredLength(r.headers))
  }

  ghost predicate WellContent(r: Request)
    requires WellLine(r.line)
  {
    match FrameOf(r)
    case Refuse => false
    case Nothing => r.content.NoContent?
    case ByLength => r.content.Declared? && |r.content.data| == DeclaredLength(r.headers)
    case ByChunks => r.content.InChunks? && forall c :: c in r.content.chunks ==> WellFormed(c)
  }

  /** The connection stays open: in version 1.1 unless `close` is asked for, before only if `keep-alive` is. */
  ghost predicate KeepsOpen(r: Request) {
    if MajorOf(r.line.version) > 0 && MinorOf(r.line.version) > 0 then !Wants(r.headers, "close")
    else Wants(r.headers, "keep-alive")
  }

  function ChunkEvents(chunks: seq<Chunk>): Log
    decreases |chunks|
  {
    if chunks == [] then []
    else [Note(ChunkHeader), Data(BodyKind, chunks[0].data), Note(ChunkComplete)] + ChunkEvents(chunks[1..])
  }

  function ContentEvents(c: Content): Log {
    match c
    case NoContent => []
    case Declared(data) => [Data(BodyKind, data)]
    case InChunks(chunks) => ChunkEvents(chunks) + [Note(ChunkHeader), Note(ChunkComplete)]
  }

  function HeadEvents(r: Request): Log {
    [Note(MessageBegin), Data(UrlKind, r.line.url)] + HeaderEvents(r.headers) + [Note(HeadersComplete)]
  }

  /** What the callbacks receive of a request. */
  function RequestEvents(r: Request): Log {
    HeadEvents(r) + ContentEvents(r.content) + [Note(MessageComplete)]
  }

  // ---------- the end of the headers ----------

  predicate UpgradeOf(p: Parser) {
    (p.flags.upgrade && p.flags.connUpgrade) || p.verb.CONNECT?
  }

  function FrameAt(p: Parser): Frame {
    FrameFor(p.verb.CONNECT?, UpgradeOf(p), p.transferEncoding, p.flags.chunked, p.contentLength)
  }

  predicate ReadyToEnd(p: Parser) {
    && !p.flags.trailing && !p.flags.skipBody && p.errno == OK
    && (p.flags.contentLength <==> p.contentLength != ULLONG_MAX)
  }

  /** The parser behind the headers, before the content. */
  function Opened(p: Parser, state: State): Parser {
    p.(state := state, upgrade := UpgradeOf(p), nread := 0)
  }

  lemma EndOut(p: Parser)
    requires ReadyToEnd(p)
    ensures var o := OnHeadersAlmostDone(p.(state := HeadersAlmostDone), LF, []);
            match FrameAt(p)
            case Refuse => o.parser.errno != OK
            case Nothing =>
              o == Out(Opened(p, NewMessage(p)), [Tell(HeadersComplete), Tell(MessageComplete)], UpgradeOf(p))
            case ByLength => o == Out(Opened(p, BodyIdentity), [Tell(HeadersComplete)], false)
            case ByChunks => o == Out(Opened(p, ChunkSizeStart), [Tell(HeadersComplete)], false)
  {
    assert [] + [Tell(HeadersComplete)] == [Tell(HeadersComplete)];
    assert [Tell(HeadersComplete)] + [Tell(MessageComplete)] == [Tell(HeadersComplete), Tell(MessageComplete)];
    NewMessageIs(p);
    hide NewMessage;
  }

  lemma NewMessageIs(p: Parser)
    ensures NewMessage(p.(state := HeadersDone, upgrade := UpgradeOf(p), nread := 0)) == NewMessage(p)
  {
  }

  /** What the end of the headers leads to. */
  predicate Ended(s: Sim, n: nat, r: Sim) {
    var p, log := s.parser, s.view.log;
    match FrameAt(p)
    case Refuse => r.parser.errno != OK
    case Nothing =>
      r == Sim(Opened(p, NewMessage(p)), View(log + [Note(HeadersComplete), Note(MessageComplete)], NoMark),
               s.consumed + n, UpgradeOf(p))
    case ByLength =>
      r == Sim(Opened(p, BodyIdentity), View(log + [Note(HeadersComplete)], NoMark), s.consumed + n, false)
    case ByChunks =>
      r == Sim(Opened(p, ChunkSizeStart), View(log + [Note(HeadersComplete)], NoMark), s.consumed + n, false)
  }

  lemma EndDispatch(p: Parser)
    ensures p.state.HeaderFieldStart? || p.state.HeadersAlmostDone? ==>
              Dispatch(p, LF) == OnHeadersAlmostDone(p.(state := HeadersAlmostDone), LF, [])
  {
    hide OnHeadersAlmostDone;
  }

  lemma NotesOf(v: View)
    ensures PerformAll(v, [Tell(HeadersComplete)], LF) == v.(log := v.log + [Note(HeadersComplete)])
    ensures PerformAll(v, [Tell(HeadersComplete), Tell(MessageComplete)], LF)
         == v.(log := v.log + [Note(HeadersComplete), Note(MessageComplete)])
  {
    PerformOne(v, Tell(HeadersComplete), LF);
    var w := Perform(v, Tell(HeadersComplete), LF);
    PerformOne(w, Tell(MessageComplete), LF);
    var acts := [Tell(HeadersComplete), Tell(MessageComplete)];
    assert acts[1..] == [Tell(MessageComplete)];
    assert v.log + [Note(HeadersComplete)] + [Note(MessageComplete)]
        == v.log + [Note(HeadersComplete), Note(MessageComplete)];
  }

  lemma EndLF(s: Sim)
    requires !Halted(s) && s.view.mark.NoMark? && s.parser.nread < 81920 && ReadyToEnd(s.parser)
    requires s.parser.state.HeaderFieldStart? || s.parser.state.HeadersAlmostDone?
    ensures Ended(s, 1, StepByte(s, LF))
  {
    hide OnHeadersAlmostDone, Dispatch, PerformAll, UpgradeOf;
    var p := s.parser.(nread := s.parser.nread + 1);
    EndDispatch(p);
    EndOut(p);
    NotesOf(s.view);
    CountedSame(s.parser, s.parser.nread + 1, s.parser.state);
  }

  lemma CountedSame(p: Parser, n: nat, state: State)
    ensures var q := p.(nread := n, state := state);
            && FrameAt(q) == FrameAt(p) && UpgradeOf(q) == UpgradeOf(p) && NewMessage(q) == NewMessage(p)
            && forall st :: Opened(q, st) == Opened(p, st)
  {
  }

  lemma HeadEnds(s: Sim, bare: bool)
    requires AwaitsHeader(s) && s.parser.nread + |EndOfLine(bare)| <= 81920 && ReadyToEnd(s.parser)
    ensures Ended(s, |EndOfLine(bare)|, Run(s, EndOfLine(bare)))
  {
    hide Run, StepByte;
    if bare {
      RunOne(s, LF);
      EndLF(s);
    } else {
      assert [CR, LF] == [CR] + [LF];
      RunMore(s, [CR], LF);
      RunOne(s, CR);
      TrailerCR(s);
      EndLF(StepByte(s, CR));
      EndedSame(s, StepByte(s, CR), Run(s, [CR, LF]));
    }
  }

  lemma EndedSame(s: Sim, t: Sim, r: Sim)
    requires t == Moved(s, HeadersAlmostDone, 1) && Ended(t, 1, r)
    ensures Ended(s, 2, r)
  {
    hide FrameAt, Opened, NewMessage, UpgradeOf;
    CountedSame(s.parser, s.parser.nread + 1, HeadersAlmostDone);
  }

  // ---------- the head read ----------

  /** The head of a request is accepted: the lengths fit, and the length of the content can be found. */
  ghost predicate AcceptsHead(r: Request)
    requires WellLine(r.line)
  {
    LengthsFit(r.headers) && FrameOf(r) != Refuse
  }

  function NextState(open: bool): State {
    if open then StartReq else Dead
  }

  ghost function HeadState(r: Request): State
    requires WellLine(r.line)
  {
    match FrameOf(r)
    case ByLength => BodyIdentity
    case ByChunks => ChunkSizeStart
    case _ => NextState(KeepsOpen(r))
  }

  /** The parser is behind the head of a request. */
  ghost predicate HeadDone(s: Sim, r: Request, e: Sim)
    requires WellLine(r.line)
  {
    var over := FrameOf(r) == Nothing;
    && e.parser.errno == OK && e.stop == (over && HandsOver(r)) && e.consumed == s.consumed + |HeadText(r)|
    && e.view == View(s.view.log + HeadEvents(r) + (if over then [Note(MessageComplete)] else []), NoMark)
    && e.parser.state == HeadState(r) && e.parser.nread == 0 && e.parser.upgrade == HandsOver(r)
    && e.parser.contentLength == DeclaredLength(r.headers) && NewMessage(e.parser) == NextState(KeepsOpen(r))
  }

  /** What the parser knows in front of the last line end of the head. */
  ghost predicate Knows(r: Request, p: Parser)
    requires WellLine(r.line)
  {
    && p.errno == OK && p.flags == FlagsMeant(r.headers) && p.transferEncoding == IsCoded(r.headers)
    && p.contentLength == DeclaredLength(r.headers) && p.verb == MethodNumber(r.line.verb)
    && p.httpMajor == MajorOf(r.line.version) && p.httpMinor == MinorOf(r.line.version)
  }

  lemma KnowsFrame(r: Request, p: Parser)
    requires WellLine(r.line) && LengthsFit(r.headers) && Knows(r, p)
    ensures ReadyToEnd(p) && FrameAt(p) == FrameOf(r) && UpgradeOf(p) == HandsOver(r)
    ensures NewMessage(p) == NextState(KeepsOpen(r))
  {
    hide WordNumber, MethodNumber, IsCoded, IsChunked, Wants, IsUpgraded, DeclaredLength, LengthsFit, HasLengthHeader;
    VerbIs(r.line.verb);
    LengthKnown(r.headers);
  }

  lemma OpenedKeeps(p: Parser, state: State)
    ensures NewMessage(Opened(p, state)) == NewMessage(p)
  {
  }

  lemma EndIsHead(s: Sim, r: Request, t: Sim, e: Sim)
    requires WellLine(r.line) && AcceptsHead(r) && Knows(r, t.parser)
    requires t.view.log == s.view.log + [Note(MessageBegin), Data(UrlKind, r.line.url)] + HeaderEvents(r.headers)
    requires t.consumed == s.consumed + |LineText(r.line)| + |HeadersText(r.headers)|
    requires Ended(t, |EndOfLine(r.bare)|, e)
    ensures HeadDone(s, r, e)
  {
    KnowsFrame(r, t.parser);
    OpenedKeeps(t.parser, HeadState(r));
    hide WordNumber, MethodNumber, Wants, IsUpgraded, DeclaredLength, LengthsFit, FrameOf, FrameAt, HandsOver,
      UpgradeOf, KeepsOpen, NewMessage, LineText, HeadersText, EndOfLine, HeaderEvents, WellLine, ReadyToEnd;
    EventsJoin(s.view.log, r);
  }

  lemma EventsJoin(log: Log, r: Request)
    ensures var head := log + [Note(MessageBegin), Data(UrlKind, r.line.url)] + HeaderEvents(r.headers);
            && head + [Note(HeadersComplete)] == log + HeadEvents(r) == log + HeadEvents(r) + []
            && head + [Note(HeadersComplete), Note(MessageComplete)] == log + HeadEvents(r) + [Note(MessageComplete)]
  {
    hide HeaderEvents;
  }

  lemma LineLeaves(s: Sim, l: RequestLine)
    requires AwaitsRequest(s) && WellLine(l)
    ensures AwaitsHeaders(AfterLine(s, l))
  {
    hide LineText, WordNumber, MethodNumber;
  }

  lemma BehindKnows(s: Sim, r: Request, t: Sim)
    requires WellLine(r.line) && AwaitsRequest(s) && Behind(AfterLine(s, r.line), r.headers, t)
    ensures Knows(r, t.parser) && AwaitsHeader(t)
    ensures t.parser.nread == s.parser.nread + |LineText(r.line)| + |HeadersText(r.headers)|
    ensures t.view.log == s.view.log + [Note(MessageBegin), Data(UrlKind, r.line.url)] + HeaderEvents(r.headers)
    ensures t.consumed == s.consumed + |LineText(r.line)| + |HeadersText(r.headers)|
  {
    hide LineText, WordNumber, MethodNumber, FlagsMeant, IsCoded, DeclaredLength, HeadersText, HeaderEvents, WellLine;
  }

  /** The head of a request: line, headers and the empty line behind them. */
  lemma HeadRead(s: Sim, r: Request)
    requires AwaitsRequest(s) && WellLine(r.line) && WellHeaders(r.headers)
    requires s.parser.nread + |HeadText(r)| <= 81920
    ensures var e := Run(s, HeadText(r));
            if AcceptsHead(r) then HeadDone(s, r, e) else e.parser.errno != OK
  {
    hide Run, StepByte, LineText, HeadersText, WellLine, WellHeaders, LengthsFit, Ended, HeadDone, Knows, Behind,
      AfterLine, Finished, Refused, BehindLine, FrameOf;
    var s1, eol := AfterLine(s, r.line), EndOfLine(r.bare);
    var s2 := Run(s1, HeadersText(r.headers));
    LineRead(s, r.line);
    LineLeaves(s, r.line);
    RunConcat(s, LineText(r.line), HeadersText(r.headers));
    RunConcat(s, LineText(r.line) + HeadersText(r.headers), eol);
    AfterLineCount(s, r.line);
    HeadersRead(s1, r.headers);
    if LengthsFit(r.headers) {
      var t := if r.headers == [] then s2 else Finished(s2);
      BehindKnows(s, r, t);
      KnowsFrame(r, t.parser);
      if r.headers != [] {
        FinishedCount(s2);
        FinishedRun(s2, eol);
      }
      HeadEnds(t, r.bare);
      if AcceptsHead(r) {
        EndIsHead(s, r, t, Run(t, eol));
      } else {
        EndRefuses(t, Run(t, eol), |eol|);
      }
    } else {
      RefusedFor(s2, eol);
    }
  }

  lemma EndRefuses(t: Sim, e: Sim, n: nat)
    requires Ended(t, n, e) && FrameAt(t.parser) == Refuse
    ensures e.parser.errno != OK
  {
  }

  lemma AfterLineCount(s: Sim, l: RequestLine)
    requires WellLine(l)
    ensures AfterLine(s, l).parser.nread == s.parser.nread + |LineText(l)|
  {
  }

  // ---------- a request read ----------

  /** A request that is well-formed and whose content is as its head declares. */
  ghost predicate WellRequest(r: Request) {
    WellLine(r.line) && WellHeaders(r.headers) && AcceptsHead(r) && WellContent(r)
  }

  /** The parser is behind a request. */
  ghost predicate RequestDone(s: Sim, r: Request, e: Sim)
    requires WellLine(r.line)
  {
    && e.parser.errno == OK && e.stop == HandsOver(r) && e.consumed == s.consumed + |RequestText(r)|
    && e.view == View(s.view.log + RequestEvents(r), NoMark)
    && e.parser.state == NextState(KeepsOpen(r))
    && e.parser.nread == if r.content.InChunks? then 2 else 0
  }

  lemma {:induction false} ChunksLog(s: Sim, chunks: seq<Chunk>)
    ensures AfterChunks(s, chunks).view.log == s.view.log + ChunkEvents(chunks)
    decreases |chunks|
  {
    var log := s.view.log;
    if chunks == [] {
      assert log + [] == log;
    } else {
      var t := AfterChunk(s, chunks[0]);
      var three := [Note(ChunkHeader), Data(BodyKind, chunks[0].data), Note(ChunkComplete)];
      assert t.view.log == log + three by {
        hide EncodeChunk;
      }
      hide AfterChunk;
      ChunksLog(t, chunks[1..]);
      assert log + three + ChunkEvents(chunks[1..]) == log + (three + ChunkEvents(chunks[1..]));
    }
  }

  lemma EventsOf(log: Log, r: Request)
    ensures r.content.NoContent? ==> log + HeadEvents(r) + [Note(MessageComplete)] == log + RequestEvents(r)
    ensures r.content.Declared? ==>
              log + HeadEvents(r) + [] + [Data(BodyKind, r.content.data)] + [Note(MessageComplete)]
              == log + RequestEvents(r)
    ensures r.content.InChunks? ==>
              log + HeadEvents(r) + [] + ChunkEvents(r.content.chunks)
              + [Note(ChunkHeader), Note(ChunkComplete), Note(MessageComplete)] == log + RequestEvents(r)
  {
    hide HeadEvents, ChunkEvents;
    var l := log + HeadEvents(r);
    assert l + [] == l;
    match r.content
    case NoContent => assert HeadEvents(r) + [] == HeadEvents(r);
    case Declared(data) =>
    case InChunks(chunks) =>
      assert [Note(ChunkHeader), Note(ChunkComplete)] + [Note(MessageComplete)]
          == [Note(ChunkHeader), Note(ChunkComplete), Note(MessageComplete)];
  }

  lemma LogEndsInNote(log: Log, r: Request)
    ensures var l := log + HeadEvents(r) + []; l != [] && l[|l| - 1] == Note(HeadersComplete)
  {
    hide HeaderEvents;
  }

  lemma LengthContent(s: Sim, r: Request, e: Sim)
    requires WellRequest(r) && HeadDone(s, r, e) && FrameOf(r) == ByLength
    ensures RequestDone(s, r, Run(e, r.content.data))
  {
    hide Run, WellLine, LengthsFit, HandsOver, KeepsOpen, HeadEvents, RequestEvents, WordNumber, DeclaredLength,
      HeadText, WellHeaders;
    LengthPositive(r);
    BodyRun(e, r.content.data);
    LogEndsInNote(s.view.log, r);
    EventsOf(s.view.log, r);
    TextOf(r);
  }

  lemma LengthPositive(r: Request)
    requires WellLine(r.line) && FrameOf(r) == ByLength
    ensures DeclaredLength(r.headers) > 0
  {
    hide WellLine, DeclaredLength;
  }

  lemma TextOf(r: Request)
    requires WellLine(r.line)
    ensures |RequestText(r)| == |HeadText(r)| + |ContentText(r.content)|
    ensures r.content.NoContent? ==> RequestText(r) == HeadText(r)
  {
    hide HeadText, WellLine, Encode;
    assert r.content.NoContent? ==> HeadText(r) + [] == HeadText(r);
  }

  lemma ChunkContent(s: Sim, r: Request, e: Sim)
    requires WellRequest(r) && HeadDone(s, r, e) && FrameOf(r) == ByChunks
    ensures RequestDone(s, r, Run(e, Encode(r.content.chunks)))
  {
    hide Run, WellLine, LengthsFit, HandsOver, KeepsOpen, HeadEvents, RequestEvents, WordNumber, DeclaredLength,
      HeadText, WellHeaders, EncodeChunks, WellFormed, ChunkEvents, AfterChunks;
    var chunks := r.content.chunks;
    ChunksRun(e, chunks);
    BodyRuns(e, chunks);
    ChunksLog(e, chunks);
    SameNext(e.parser, AfterChunks(e, chunks).parser.contentLength);
    EventsOf(s.view.log, r);
    TextOf(r);
  }

  lemma SameNext(p: Parser, n: u64)
    ensures NewMessage(p.(contentLength := n)) == NewMessage(p)
  {
  }

  lemma NoContentDone(s: Sim, r: Request, e: Sim)
    requires WellRequest(r) && HeadDone(s, r, e) && FrameOf(r) == Nothing
    ensures RequestDone(s, r, e)
  {
    hide WellLine, LengthsFit, HandsOver, KeepsOpen, HeadEvents, RequestEvents, WordNumber, DeclaredLength, HeadText,
      WellHeaders;
    EventsOf(s.view.log, r);
    TextOf(r);
  }

  /**
   * A request whose head is well-formed line by line is refused, or it is read to its last byte: the message begins and
   * completes once, and between them the callbacks receive exactly its URL, the names and values of its headers, and
   * its content.  Whether the connection stays open, and whether it is handed over, is what its headers ask for.
   */
  lemma RequestRead(s: Sim, r: Request)
    requires AwaitsRequest(s) && WellLine(r.line) && WellHeaders(r.headers)
    requires s.parser.nread + |HeadText(r)| <= 81920
    ensures AcceptsHead(r) && WellContent(r) ==> RequestDone(s, r, Run(s, RequestText(r)))
    ensures !AcceptsHead(r) ==> Run(s, RequestText(r)).parser.errno != OK
  {
    hide Run, WellLine, WellHeaders, AcceptsHead, HeadText, HeadDone, RequestDone, FrameOf, Encode, WellFormed;
    var e := Run(s, HeadText(r));
    HeadRead(s, r);
    RunConcat(s, HeadText(r), ContentText(r.content));
    if !AcceptsHead(r) {
      HaltedStays(e, ContentText(r.content));
    } else if WellContent(r) {
      match FrameOf(r)
      case Nothing =>
        RunNothing(e);
        NoContentDone(s, r, e);
      case ByLength => LengthContent(s, r, e);
      case ByChunks => ChunkContent(s, r, e);
    }
  }

  // ---------- requests in a row ----------

  function RequestsText(rs: seq<Request>): Bytes
    requires forall i :: 0 <= i < |rs| ==> WellLine(rs[i].line)
    decreases |rs|
  {
    if rs == [] then [] else RequestText(rs[0]) + RequestsText(rs[1..])
  }

  function RequestsEvents(rs: seq<Request>): Log
    decreases |rs|
  {
    if rs == [] then [] else RequestEvents(rs[0]) + RequestsEvents(rs[1..])
  }

  ghost predicate FitsInARow(r: Request) {
    WellRequest(r) && |HeadText(r)| + 2 <= 81920
  }

  /** The connection is free for the next request. */
  ghost predicate LetsNext(r: Request) {
    WellRequest(r) && KeepsOpen(r) && !HandsOver(r)
  }

  /** Requests on one connection: each but the last keeps it open. */
  ghost predicate InARow(rs: seq<Request>) {
    && (forall i :: 0 <= i < |rs| ==> FitsInARow(rs[i]))
    && forall i :: 0 <= i < |rs| - 1 ==> LetsNext(rs[i])
  }

  lemma LinesInARow(rs: seq<Request>)
    requires InARow(rs)
    ensures forall i :: 0 <= i < |rs| ==> WellLine(rs[i].line)
    ensures rs != [] ==> InARow(rs[1..])
  {
    hide WellLine, HeadText, KeepsOpen, HandsOver, WellHeaders, AcceptsHead, WellContent;
    forall i | 0 <= i < |rs| ensures WellLine(rs[i].line) { assert FitsInARow(rs[i]); }
    hide FitsInARow, LetsNext;
    if rs != [] {
      var rest := rs[1..];
      forall i | 0 <= i < |rest| ensures FitsInARow(rest[i]) { assert rest[i] == rs[i + 1]; }
      forall i | 0 <= i < |rest| - 1 ensures LetsNext(rest[i]) { assert rest[i] == rs[i + 1]; }
    }
  }

  /** The parser is behind requests in a row: the connection is as the last of them asks. */
  ghost predicate RowDone(s: Sim, rs: seq<Request>, e: Sim)
    requires rs != [] && forall i :: 0 <= i < |rs| ==> WellLine(rs[i].line)
  {
    var last := rs[|rs| - 1];
    && e.parser.errno == OK && e.consumed == s.consumed + |RequestsText(rs)|
    && e.view == View(s.view.log + RequestsEvents(rs), NoMark)
    && e.parser.state == NextState(KeepsOpen(last)) && e.stop == HandsOver(last) && e.parser.nread <= 2
  }

  lemma LastOfRow(s: Sim, r: Request, e: Sim)
    requires WellLine(r.line) && RequestDone(s, r, e)
    ensures RowDone(s, [r], e)
  {
    hide WellLine, RequestText, RequestEvents, KeepsOpen, HandsOver;
    assert [r][1..] == [];
    assert RequestsText([r]) == RequestText(r) + [] == RequestText(r);
    assert RequestsEvents([r]) == RequestEvents(r) + [] == RequestEvents(r);
  }

  lemma FirstOfRow(s: Sim, rs: seq<Request>, t: Sim, e: Sim)
    requires |rs| > 1 && forall i :: 0 <= i < |rs| ==> WellLine(rs[i].line)
    requires RequestDone(s, rs[0], t) && RowDone(t, rs[1..], e)
    ensures RowDone(s, rs, e)
  {
    hide WellLine, RequestText, RequestEvents, KeepsOpen, HandsOver;
    var log, a, b := s.view.log, RequestEvents(rs[0]), RequestsEvents(rs[1..]);
    assert log + a + b == log + (a + b);
    assert rs[1..][|rs| - 2] == rs[|rs| - 1];
  }

  /** All requests of a row are read, each with its own callbacks. */
  lemma {:induction false} RowRead(s: Sim, rs: seq<Request>)
    requires AwaitsRequest(s) && s.parser.nread <= 2 && InARow(rs) && rs != []
    ensures forall i :: 0 <= i < |rs| ==> WellLine(rs[i].line)
    ensures RowDone(s, rs, Run(s, RequestsText(rs)))
    decreases |rs|
  {
    hide Run, WellLine, WellHeaders, AcceptsHead, WellContent, HeadText, RequestText, RequestEvents, KeepsOpen,
      HandsOver, RowDone;
    LinesInARow(rs);
    var r, rest := rs[0], rs[1..];
    var t := Run(s, RequestText(r));
    assert FitsInARow(r);
    RequestRead(s, r);
    if rest == [] {
      assert rs == [r] && RequestText(r) + [] == RequestText(r);
      LastOfRow(s, r, t);
    } else {
      RunConcat(s, RequestText(r), RequestsText(rest));
      assert LetsNext(r);
      RowRead(t, rest);
      FirstOfRow(s, rs, t, Run(t, RequestsText(rest)));
    }
  }

  /** A connection that does not stay open takes nothing more but line ends. */
  lemma ClosedByte(s: Sim, ch: Byte)
    requires !Halted(s) && s.parser.state.Dead? && s.parser.nread < 81920
    ensures if ch == '\r' || ch == '\n' then !Halted(StepByte(s, ch)) && StepByte(s, ch).parser.state.Dead?
            else StepByte(s, ch).parser.errno == ClosedConnection
  {
  }

  /**
   * From a new parser, however the stream is cut: the callbacks receive of every request in a row exactly its parts,
   * each request begins and completes once, and every byte is consumed.
   */
  lemma RequestsServed(rs: seq<Request>, pieces: seq<Bytes>)
    requires InARow(rs) && rs != []
    requires forall i :: 0 <= i < |rs| ==> WellLine(rs[i].line)
    requires Concat(pieces) == RequestsText(rs) && pieces != [] && forall i :: 0 <= i < |pieces| ==> pieces[i] != []
    ensures var f, last := Feed(INITIAL, [], pieces), rs[|rs| - 1];
            && f.parser.errno == OK && f.log == RequestsEvents(rs) && f.consumed == |RequestsText(rs)|
            && f.parser.state == NextState(KeepsOpen(last)) && f.stop == HandsOver(last)
            && f == Call(INITIAL, [], RequestsText(rs))
  {
    hide Run, WellLine, WellHeaders, AcceptsHead, WellContent, HeadText, RequestText, RequestEvents, KeepsOpen,
      HandsOver, InARow, RequestsText, RequestsEvents, Feed, Concat, Lost;
    var s := Enter(INITIAL, []);
    RowRead(s, rs);
    FragmentationIndependence(INITIAL, [], pieces);
    assert [] + RequestsEvents(rs) == RequestsEvents(rs);
    RowNotEmpty(rs);
    CallOf(INITIAL, [], Concat(pieces));
  }

  lemma RowNotEmpty(rs: seq<Request>)
    requires rs != [] && forall i :: 0 <= i < |rs| ==> WellLine(rs[i].line)
    ensures RequestsText(rs) != []
  {
    hide WellLine, VersionText, ContentText, HeadersText;
    assert |EndOfLine(rs[0].bare)| > 0;
    assert |RequestText(rs[0])| > 0;
    hide RequestText;
  }

  lemma CallOf(p: Parser, log: Log, data: Bytes)
    requires p.errno == OK
    ensures data != [] ==> Call(p, log, data) == Leave(Run(Enter(p, log), data))
  {
  }
}
