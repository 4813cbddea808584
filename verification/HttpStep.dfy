/** What one byte does to a request parser: the branch of each state, with every re-execution carried through. */
module HttpStep {
  import opened HttpTypes
  import opened HttpUrlChar

  /** The kinds of data handed to the callbacks. */
  datatype Kind = FieldKind | ValueKind | UrlKind | BodyKind

  datatype Notice = MessageBegin | HeadersComplete | ChunkHeader | ChunkComplete | MessageComplete

  /** What a branch does with the marks and the callbacks, in order. */
  datatype Act =
    | Mark(kind: Kind)          // a run of data starts at this byte
    | Flush(kind: Kind)         // hand over the run up to, and without, this byte
    | FlushThrough(kind: Kind)  // hand over the run with this byte
    | Tell(notice: Notice)

  /** The parser after the byte, the acts, and whether the call returns to let another protocol take over. */
  datatype Out = Out(parser: Parser, acts: seq<Act>, stop: bool)

  function Fail(p: Parser, e: Errno, acts: seq<Act>): Out {
    Out(p.(errno := e), acts, false)
  }

  function Goto(p: Parser, s: State): Out {
    Out(p.(state := s), [], false)
  }

  function NewMessage(p: Parser): State {
    if ShouldKeepAlive(p) then StartReq else Dead
  }

  // ---------- request line ----------

  function OnDead(p: Parser, ch: Byte): Out {
    if ch == CR || ch == LF then Out(p, [], false) else Fail(p, ClosedConnection, [])
  }

  function OnStartReq(p: Parser, ch: Byte): Out {
    if ch == CR || ch == LF then Out(p, [], false)
    else
      var p1 := p.(flags := NO_FLAGS, transferEncoding := false, contentLength := ULLONG_MAX);
      if !IsAlpha(ch) then Fail(p1, InvalidMethod, [])
      else
        var p2 := p1.(verb := DELETE, index := 1);
        if StartsMethod(ch) then
          Out(p2.(verb := FirstGuess(ch), state := ReqMethod), [Tell(MessageBegin)], false)
        else Fail(p2, InvalidMethod, [])
  }

  predicate StartsMethod(ch: Byte) {
    'A' <= ch <= 'D' || ch == 'G' || ch == 'H' || 'L' <= ch <= 'P' || 'R' <= ch <= 'U'
  }

  /** The method assumed from the first letter; later letters may correct it. */
  function FirstGuess(ch: Byte): Method {
    if ch == 'A' then ACL
    else if ch == 'B' then BIND
    else if ch == 'C' then CONNECT
    else if ch == 'D' then DELETE
    else if ch == 'G' then GET
    else if ch == 'H' then HEAD
    else if ch == 'L' then LOCK
    else if ch == 'M' then MKCOL
    else if ch == 'N' then NOTIFY
    else if ch == 'O' then OPTIONS
    else if ch == 'P' then POST
    else if ch == 'R' then REPORT
    else if ch == 'S' then SUBSCRIBE
    else if ch == 'T' then TRACE
    else UNLOCK
  }

  datatype Option<T> = None | Some(value: T)

  /** The corrections: at `index`, letter `ch` turns the method assumed so far into another. */
  function Retarget(m: Method, index: nat, ch: Byte): Option<Method> {
    match m
    case POST =>
      if index == 1 && ch == 'U' then Some(PUT)
      else if index == 1 && ch == 'A' then Some(PATCH)
      else if index == 1 && ch == 'R' then Some(PROPFIND)
      else None
    case PUT => if index == 2 && ch == 'R' then Some(PURGE) else None
    case CONNECT =>
      if index == 1 && ch == 'H' then Some(CHECKOUT)
      else if index == 2 && ch == 'P' then Some(COPY)
      else None
    case MKCOL =>
      if index == 1 && ch == 'O' then Some(MOVE)
      else if index == 1 && ch == 'E' then Some(MERGE)
      else if index == 1 && ch == '-' then Some(MSEARCH)
      else if index == 2 && ch == 'A' then Some(MKACTIVITY)
      else if index == 3 && ch == 'A' then Some(MKCALENDAR)
      else None
    case SUBSCRIBE =>
      if index == 1 && ch == 'E' then Some(SEARCH)
      else if index == 1 && ch == 'O' then Some(SOURCE)
      else None
    case REPORT => if index == 2 && ch == 'B' then Some(REBIND) else None
    case PROPFIND => if index == 4 && ch == 'P' then Some(PROPPATCH) else None
    case LOCK => if index == 1 && ch == 'I' then Some(LINK) else None
    case UNLOCK =>
      if index == 2 && ch == 'S' then Some(UNSUBSCRIBE)
      else if index == 2 && ch == 'B' then Some(UNBIND)
      else if index == 3 && ch == 'I' then Some(UNLINK)
      else None
    case _ => None
  }

  /** A C string read at `i`: the terminator follows the last character. */
  function CharAt(w: Bytes, i: nat): Byte {
    if i < |w| then w[i] else NUL
  }

  function OnReqMethod(p: Parser, ch: Byte): Out {
    var want := CharAt(MethodString(p.verb), p.index);
    var next := p.(index := p.index + 1);
    if ch == NUL then Fail(p, InvalidMethod, [])
    else if ch == ' ' && want == NUL then Goto(next, SpacesBeforeUrl)
    else if ch == want then Out(next, [], false)
    else if 'A' <= ch <= 'Z' || ch == '-' then
      match Retarget(p.verb, p.index, ch)
      case Some(m) => Out(next.(verb := m), [], false)
      case None => Fail(p, InvalidMethod, [])
    else Fail(p, InvalidMethod, [])
  }

  function OnUrlChar(p: Parser, ch: Byte, acts: seq<Act>): Out {
    var s := ParseUrlChar(p.state, ch);
    if s.Dead? then Fail(p.(state := s), InvalidUrl, acts) else Out(p.(state := s), acts, false)
  }

  function OnSpacesBeforeUrl(p: Parser, ch: Byte): Out {
    if ch == ' ' then Out(p, [], false)
    else OnUrlChar(if p.verb.CONNECT? then p.(state := ServerStart) else p, ch, [Mark(UrlKind)])
  }

  /** Inside the scheme no white space is allowed. */
  function OnSchema(p: Parser, ch: Byte): Out {
    if ch == ' ' || ch == CR || ch == LF then Fail(p, InvalidUrl, []) else OnUrlChar(p, ch, [])
  }

  function OnUrl(p: Parser, ch: Byte): Out {
    if ch == ' ' then Out(p.(state := HttpStart), [Flush(UrlKind)], false)
    else if ch == CR || ch == LF then
      var s := if ch == CR then LineAlmostDone else HeaderFieldStart;
      Out(p.(httpMajor := 0, httpMinor := 9, state := s), [Flush(UrlKind)], false)
    else OnUrlChar(p, ch, [])
  }

  function OnHttpStart(p: Parser, ch: Byte): Out {
    if ch == ' ' then Out(p, [], false)
    else if ch == 'H' then Goto(p, HttpH)
    else if ch == 'I' && p.verb.SOURCE? then Goto(p, HttpI)
    else Fail(p, InvalidConstant, [])
  }

  function Strictly(p: Parser, ch: Byte, want: Byte, s: State): Out {
    if ch != want then Fail(p, Strict, []) else Goto(p, s)
  }

  function OnHttpEnd(p: Parser, ch: Byte): Out {
    if ch == CR then Goto(p, LineAlmostDone)
    else if ch == LF then Goto(p, HeaderFieldStart)
    else Fail(p, InvalidVersion, [])
  }

  // ---------- end of the headers ----------

  function OnMessageDone(p: Parser, acts: seq<Act>): Out {
    Out(p.(state := NewMessage(p)), acts + [Tell(MessageComplete)], p.upgrade)
  }

  predicate HasBody(p: Parser) {
    p.flags.chunked || (p.contentLength > 0 && p.contentLength != ULLONG_MAX)
  }

  function OnHeadersDone(p: Parser, ch: Byte, acts: seq<Act>): Out {
    if ch != LF then Fail(p, Strict, acts)
    else
      var q := p.(nread := 0);
      var over := Out(q.(state := NewMessage(q)), acts + [Tell(MessageComplete)], false);
      if q.upgrade && (q.verb.CONNECT? || q.flags.skipBody || !HasBody(q)) then over.(stop := true)
      else if q.flags.skipBody then over
      else if q.flags.chunked then Out(q.(state := ChunkSizeStart), acts, false)
      else if q.transferEncoding then Fail(q, InvalidTransferEncoding, acts)
      else if q.contentLength == 0 then over
      else if q.contentLength != ULLONG_MAX then Out(q.(state := BodyIdentity), acts, false)
      else over
  }

  function OnHeadersAlmostDone(p: Parser, ch: Byte, acts: seq<Act>): Out {
    if ch != LF then Fail(p, Strict, acts)
    else if p.flags.trailing then
      OnMessageDone(p.(state := MessageDone), acts + [Tell(ChunkComplete)])
    else if p.transferEncoding && p.flags.contentLength then Fail(p, UnexpectedContentLength, acts)
    else
      var up := (p.flags.upgrade && p.flags.connUpgrade) || p.verb.CONNECT?;
      OnHeadersDone(p.(state := HeadersDone, upgrade := up), ch, acts + [Tell(HeadersComplete)])
  }

  // ---------- header fields ----------

  function OnFieldStart(p: Parser, ch: Byte, acts: seq<Act>): Out {
    if ch == CR then Out(p.(state := HeadersAlmostDone), acts, false)
    else if ch == LF then OnHeadersAlmostDone(p.(state := HeadersAlmostDone), ch, acts)
    else if Token(ch) == NUL then Fail(p, InvalidHeaderToken, acts)
    else
      Out(p.(index := 0, state := HeaderField, headerState := FirstFieldState(Token(ch))), acts + [Mark(FieldKind)],
          false)
  }

  function FirstFieldState(c: Byte): HeaderState {
    if c == 'c' then HC
    else if c == 'p' then MatchingProxyConnection
    else if c == 't' then MatchingTransferEncoding
    else if c == 'u' then MatchingUpgrade
    else HGeneral
  }

  const PROXY_CONNECTION: Bytes := "proxy-connection"
  const CONNECTION: Bytes := "connection"
  const CONTENT_LENGTH: Bytes := "content-length"
  const TRANSFER_ENCODING: Bytes := "transfer-encoding"
  const UPGRADE: Bytes := "upgrade"
  const CHUNKED: Bytes := "chunked"
  const KEEP_ALIVE: Bytes := "keep-alive"
  const CLOSE: Bytes := "close"

  /** One more letter of an expected word: it matches on, completes the word, or leaves it. */
  function MatchWord(p: Parser, word: Bytes, c: Byte, whole: HeaderState, miss: HeaderState): Parser {
    var i := p.index + 1;
    if i > |word| || c != CharAt(word, i) then p.(index := i, headerState := miss)
    else if i == |word| - 1 then p.(index := i, headerState := whole)
    else p.(index := i)
  }

  /** A letter of a field name, `c` being its token. */
  function FieldChar(p: Parser, ch: Byte): Parser {
    var c := Token(ch);
    match p.headerState
    case HC => p.(index := p.index + 1, headerState := if c == 'o' then HCO else HGeneral)
    case HCO => p.(index := p.index + 1, headerState := if c == 'n' then HCON else HGeneral)
    case HCON =>
      p.(index := p.index + 1,
      headerState := if c == 'n' then MatchingConnection else if c == 't' then MatchingContentLength else HGeneral)
    case MatchingConnection => MatchWord(p, CONNECTION, c, HConnection, HGeneral)
    case MatchingProxyConnection => MatchWord(p, PROXY_CONNECTION, c, HConnection, HGeneral)
    case MatchingContentLength => MatchWord(p, CONTENT_LENGTH, c, HContentLength, HGeneral)
    case MatchingTransferEncoding =>
      var q := MatchWord(p, TRANSFER_ENCODING, c, HTransferEncoding, HGeneral);
      if q.headerState.HTransferEncoding? then q.(transferEncoding := true) else q
    case MatchingUpgrade => MatchWord(p, UPGRADE, c, HUpgrade, HGeneral)
    case HConnection => p.(headerState := HGeneral)
    case HContentLength => p.(headerState := HGeneral)
    case HTransferEncoding => p.(headerState := HGeneral)
    case HUpgrade => p.(headerState := HGeneral)
    case _ => p
  }

  function OnHeaderField(p: Parser, ch: Byte): Out {
    if Token(ch) != NUL then Out(FieldChar(p, ch), [], false)
    else if ch == ':' then Out(p.(state := ValueDiscardWs), [Flush(FieldKind)], false)
    else Fail(p, InvalidHeaderToken, [])
  }

  // ---------- header values ----------

  function OnValueStart(p: Parser, ch: Byte): Out {
    var q := p.(state := HeaderValue, index := 0);
    var c := Lower(ch);
    var acts := [Mark(ValueKind)];
    match p.headerState
    case HUpgrade => Out(q.(flags := q.flags.(upgrade := true), headerState := HGeneral), acts, false)
    case HTransferEncoding => Out(q.(headerState := if c == 'c' then TEMatchingChunked else TEToken), acts, false)
    case TETokenStart => Out(q, acts, false)
    case HContentLength =>
      if !IsNum(ch) then Fail(q, InvalidContentLength, acts)
      else if q.flags.contentLength then Fail(q, UnexpectedContentLength, acts)
      else
        Out(q.(flags := q.flags.(contentLength := true), contentLength := Digit(ch), headerState := HContentLengthNum),
            acts, false)
    case HContentLengthWs => Out(q, acts, false)
    case HConnection =>
      var h := if c == 'k' then ConnMatchingKeepAlive
               else if c == 'c' then ConnMatchingClose
               else if c == 'u' then ConnMatchingUpgrade
               else ConnToken;
      Out(q.(headerState := h), acts, false)
    case ConnTokenStart => Out(q, acts, false)
    case _ => Out(q.(headerState := HGeneral), acts, false)
  }

  function Digit(ch: Byte): (d: nat)
    requires IsNum(ch)
  {
    ch as int - '0' as int
  }

  function LengthDigit(p: Parser, ch: Byte): Parser {
    if ch == ' ' then p.(headerState := HContentLengthWs)
    else if !IsNum(ch) then p.(errno := InvalidContentLength)
    else if (ULLONG_MAX - 10) / 10 < p.contentLength then p.(errno := InvalidContentLength)
    else p.(contentLength := p.contentLength * 10 + Digit(ch))
  }

  /** A byte of a Content-Length value: digits, then spaces. */
  function LengthChar(p: Parser, ch: Byte): Parser {
    match p.headerState
    case HContentLength => if ch == ' ' then p else LengthDigit(p.(headerState := HContentLengthNum), ch)
    case HContentLengthNum => LengthDigit(p, ch)
    case _ => if ch == ' ' then p else p.(errno := InvalidContentLength)
  }

  /** After a comma the list of codings, or of connection options, starts afresh. */
  function AfterComma(p: Parser, ch: Byte, start: HeaderState): Parser {
    if ch == ',' then p.(headerState := start, index := 0) else p
  }

  /** A byte of a Transfer-Encoding value: is `chunked` the last coding? */
  function CodingChar(p: Parser, ch: Byte): Parser {
    var c := Lower(ch);
    match p.headerState
    case TETokenStart =>
      if c == 'c' then p.(headerState := TEMatchingChunked)
      else if Token(c) != NUL then p.(headerState := TEToken)
      else if c == ' ' || c == TAB then p
      else p.(headerState := HGeneral)
    case TEMatchingChunked => MatchWord(p, CHUNKED, c, TEChunked, TEToken)
    case TEToken => AfterComma(p, ch, TETokenStart)
    case _ => if ch != ' ' then p.(headerState := TEToken) else p
  }

  function OptionEnd(p: Parser, ch: Byte, flags: Flags): Parser {
    if ch == ',' then p.(flags := flags, headerState := ConnTokenStart, index := 0)
    else if ch != ' ' then p.(headerState := ConnToken)
    else p
  }

  /** A byte of a Connection value: a list of options, three of which set flags. */
  function ConnectionChar(p: Parser, ch: Byte): Parser {
    var c := Lower(ch);
    match p.headerState
    case ConnTokenStart =>
      if c == 'k' then p.(headerState := ConnMatchingKeepAlive)
      else if c == 'c' then p.(headerState := ConnMatchingClose)
      else if c == 'u' then p.(headerState := ConnMatchingUpgrade)
      else if Token(c) != NUL then p.(headerState := ConnToken)
      else if c == ' ' || c == TAB then p
      else p.(headerState := HGeneral)
    case ConnMatchingKeepAlive => MatchWord(p, KEEP_ALIVE, c, ConnKeepAlive, ConnToken)
    case ConnMatchingClose => MatchWord(p, CLOSE, c, ConnClose, ConnToken)
    case ConnMatchingUpgrade => MatchWord(p, UPGRADE, c, ConnUpgrade, ConnToken)
    case ConnKeepAlive => OptionEnd(p, ch, p.flags.(keepAlive := true))
    case ConnClose => OptionEnd(p, ch, p.flags.(close := true))
    case ConnUpgrade => OptionEnd(p, ch, p.flags.(connUpgrade := true))
    case _ => AfterComma(p, ch, ConnTokenStart)
  }

  /** A byte of a header value, neither CR nor LF. */
  function ValueChar(p: Parser, ch: Byte): Parser {
    if !IsHeaderChar(ch) then p.(errno := InvalidHeaderToken)
    else
      match p.headerState
      case HGeneral | HConnection | HTransferEncoding => p
      case HContentLength | HContentLengthNum | HContentLengthWs => LengthChar(p, ch)
      case TETokenStart | TEMatchingChunked | TEToken | TEChunked => CodingChar(p, ch)
      case ConnTokenStart | ConnMatchingKeepAlive | ConnMatchingClose | ConnMatchingUpgrade | ConnToken
         | ConnKeepAlive | ConnClose | ConnUpgrade => ConnectionChar(p, ch)
      case _ => p.(headerState := HGeneral)
  }

  function OnHeaderValue(p: Parser, ch: Byte): Out {
    if ch == CR then Out(p.(state := HeaderAlmostDone), [Flush(ValueKind)], false)
    else if ch == LF then Out(p.(state := ValueLws), [Flush(ValueKind)], false)
    else Out(ValueChar(p, ch), [], false)
  }

  function OnHeaderAlmostDone(p: Parser, ch: Byte): Out {
    if ch != LF then Fail(p, LfExpected, []) else Goto(p, ValueLws)
  }

  /** The flags a finished header leaves. */
  function FinishHeader(p: Parser): Parser {
    match p.headerState
    case ConnKeepAlive => p.(flags := p.flags.(keepAlive := true))
    case ConnClose => p.(flags := p.flags.(close := true))
    case TEChunked => p.(flags := p.flags.(chunked := true))
    case ConnUpgrade => p.(flags := p.flags.(connUpgrade := true))
    case _ => p
  }

  /** The line after a value: white space folds it on, anything else ends the header. */
  function OnValueLws(p: Parser, ch: Byte): Out {
    if ch == ' ' || ch == TAB then
      var h := if p.headerState.HContentLengthNum? then HContentLengthWs else p.headerState;
      OnValueStart(p.(headerState := h, state := ValueStart), ch)
    else
      OnFieldStart(FinishHeader(p).(state := HeaderFieldStart), ch, [])
  }

  function OnValueDiscardWs(p: Parser, ch: Byte): Out {
    if ch == ' ' || ch == TAB then Out(p, [], false)
    else if ch == CR then Goto(p, ValueDiscardWsAlmostDone)
    else if ch == LF then Goto(p, ValueDiscardLws)
    else OnValueStart(p, ch)
  }

  /** The line after an empty value: white space continues it, anything else hands over the empty value. */
  function OnValueDiscardLws(p: Parser, ch: Byte): Out {
    if ch == ' ' || ch == TAB then Goto(p, ValueDiscardWs)
    else if p.headerState.HContentLength? then Fail(p, InvalidContentLength, [])
    else OnFieldStart(FinishHeader(p).(state := HeaderFieldStart), ch, [Mark(ValueKind), Flush(ValueKind)])
  }

  // ---------- bodies ----------

  function OnBodyIdentity(p: Parser): Out {
    var left := if p.contentLength == 0 then 0 else p.contentLength - 1;
    var q := p.(contentLength := left);
    if left == 0 then OnMessageDone(q.(state := MessageDone), [Mark(BodyKind), FlushThrough(BodyKind)])
    else Out(q, [Mark(BodyKind)], false)
  }

  function OnChunkSizeStart(p: Parser, ch: Byte): Out {
    if Unhex(ch) == -1 then Fail(p, InvalidChunkSize, [])
    else Goto(p.(contentLength := Unhex(ch)), ChunkSize)
  }

  function OnChunkSize(p: Parser, ch: Byte): Out {
    if ch == CR then Goto(p, ChunkSizeAlmostDone)
    else if Unhex(ch) == -1 then
      if ch == ';' || ch == ' ' then Goto(p, ChunkParameters) else Fail(p, InvalidChunkSize, [])
    else if (ULLONG_MAX - 16) / 16 < p.contentLength then Fail(p, InvalidContentLength, [])
    else Out(p.(contentLength := p.contentLength * 16 + Unhex(ch)), [], false)
  }

  function OnChunkParameters(p: Parser, ch: Byte): Out {
    if ch == CR then Goto(p, ChunkSizeAlmostDone) else Out(p, [], false)
  }

  function OnChunkSizeAlmostDone(p: Parser, ch: Byte): Out {
    if ch != LF then Fail(p, Strict, [])
    else
      var q := p.(nread := 0);
      if q.contentLength == 0 then
        Out(q.(flags := q.flags.(trailing := true), state := HeaderFieldStart), [Tell(ChunkHeader)], false)
      else Out(q.(state := ChunkData), [Tell(ChunkHeader)], false)
  }

  function OnChunkData(p: Parser): Out {
    var left := if p.contentLength == 0 then 0 else p.contentLength - 1;
    var q := p.(contentLength := left);
    Out(if left == 0 then q.(state := ChunkDataAlmostDone) else q, [Mark(BodyKind)], false)
  }

  function OnChunkDataAlmostDone(p: Parser, ch: Byte): Out {
    if ch != CR then Fail(p, Strict, []) else Out(p.(state := ChunkDataDone), [Flush(BodyKind)], false)
  }

  function OnChunkDataDone(p: Parser, ch: Byte): Out {
    if ch != LF then Fail(p, Strict, [])
    else Out(p.(nread := 0, state := ChunkSizeStart), [Tell(ChunkComplete)], false)
  }

  // ---------- the dispatch ----------

  function Dispatch(p: Parser, ch: Byte): Out {
    match p.state
    case Dead => OnDead(p, ch)
    case StartReq => OnStartReq(p, ch)
    case ReqMethod => OnReqMethod(p, ch)
    case SpacesBeforeUrl => OnSpacesBeforeUrl(p, ch)
    case Schema | SchemaSlash | SchemaSlashSlash | ServerStart => OnSchema(p, ch)
    case Server | ServerWithAt | UrlPath | QueryStart | Query | FragmentStart | Fragment => OnUrl(p, ch)
    case HttpStart => OnHttpStart(p, ch)
    case HttpH => Strictly(p, ch, 'T', HttpHT)
    case HttpHT => Strictly(p, ch, 'T', HttpHTT)
    case HttpHTT => Strictly(p, ch, 'P', HttpHTTP)
    case HttpI => Strictly(p, ch, 'C', HttpIC)
    case HttpIC => Strictly(p, ch, 'E', HttpHTTP)
    case HttpHTTP => Strictly(p, ch, '/', HttpMajor)
    case HttpMajor => if !IsNum(ch) then Fail(p, InvalidVersion, []) else Goto(p.(httpMajor := Digit(ch)), HttpDot)
    case HttpDot => if ch != '.' then Fail(p, InvalidVersion, []) else Goto(p, HttpMinor)
    case HttpMinor => if !IsNum(ch) then Fail(p, InvalidVersion, []) else Goto(p.(httpMinor := Digit(ch)), HttpEnd)
    case HttpEnd => OnHttpEnd(p, ch)
    case LineAlmostDone => if ch != LF then Fail(p, LfExpected, []) else Goto(p, HeaderFieldStart)
    case HeaderFieldStart => OnFieldStart(p, ch, [])
    case HeaderField => OnHeaderField(p, ch)
    case ValueDiscardWs => OnValueDiscardWs(p, ch)
    case ValueDiscardWsAlmostDone => Strictly(p, ch, LF, ValueDiscardLws)
    case ValueDiscardLws => OnValueDiscardLws(p, ch)
    case ValueStart => OnValueStart(p, ch)
    case HeaderValue => OnHeaderValue(p, ch)
    case ValueLws => OnValueLws(p, ch)
    case HeaderAlmostDone => OnHeaderAlmostDone(p, ch)
    case ChunkSizeStart => OnChunkSizeStart(p, ch)
    case ChunkSize => OnChunkSize(p, ch)
    case ChunkParameters => OnChunkParameters(p, ch)
    case ChunkSizeAlmostDone => OnChunkSizeAlmostDone(p, ch)
    case HeadersAlmostDone => OnHeadersAlmostDone(p, ch, [])
    case HeadersDone => OnHeadersDone(p, ch, [])
    case ChunkData => OnChunkData(p)
    case ChunkDataAlmostDone => OnChunkDataAlmostDone(p, ch)
    case ChunkDataDone => OnChunkDataDone(p, ch)
    case BodyIdentity => OnBodyIdentity(p)
    case MessageDone => OnMessageDone(p, [])
  }
}
