/** What holds of a request parser between any two bytes, and that every assertion of the original follows from it. */
module HttpAsserts {
  import opened HttpTypes
  import opened HttpUrlChar
  import opened HttpStep
  import opened HttpRun

  // ---------- header states ----------

  /** The matcher of a field name, or of a value, has not reached the end of its word. */
  predicate Within(p: Parser, word: Bytes) {
    p.index + 1 < |word|
  }

  predicate FieldState(p: Parser) {
    match p.headerState
    case HGeneral | HConnection | HContentLength | HUpgrade => true
    case HTransferEncoding => p.transferEncoding
    case HC => p.index == 0
    case HCO => p.index == 1
    case HCON => p.index == 2
    case MatchingConnection => Within(p, CONNECTION)
    case MatchingProxyConnection => Within(p, PROXY_CONNECTION)
    case MatchingContentLength => Within(p, CONTENT_LENGTH)
    case MatchingTransferEncoding => Within(p, TRANSFER_ENCODING)
    case MatchingUpgrade => Within(p, UPGRADE)
    case _ => false
  }

  predicate ValueState(p: Parser) {
    match p.headerState
    case HGeneral | ConnToken | ConnKeepAlive | ConnClose | ConnUpgrade => true
    case HContentLengthNum | HContentLengthWs => p.flags.contentLength && p.contentLength < ULLONG_MAX
    case TETokenStart => p.transferEncoding && p.index == 0
    case TEMatchingChunked => p.transferEncoding && Within(p, CHUNKED)
    case TEToken | TEChunked => p.transferEncoding
    case ConnTokenStart => p.index == 0
    case ConnMatchingKeepAlive => Within(p, KEEP_ALIVE)
    case ConnMatchingClose => Within(p, CLOSE)
    case ConnMatchingUpgrade => Within(p, UPGRADE)
    case _ => false
  }

  // ---------- the invariant ----------

  /** Before the last chunk, the length is the declared one, and the absent marker exactly when none was declared. */
  predicate LengthDeclared(p: Parser) {
    p.flags.contentLength <==> p.contentLength != ULLONG_MAX
  }

  /** The transfer coding `chunked` is only ever found in a Transfer-Encoding field; trailers follow a chunked body. */
  predicate HeaderPart(p: Parser) {
    && (p.flags.chunked ==> p.transferEncoding)
    && if p.flags.trailing then p.flags.chunked else LengthDeclared(p)
  }

  predicate RequestLine(p: Parser) {
    p.flags == NO_FLAGS && !p.transferEncoding && p.contentLength == ULLONG_MAX
  }

  /** A chunked body has no declared length. */
  predicate ChunkPart(p: Parser) {
    p.flags.chunked && p.transferEncoding && !p.flags.trailing && !p.flags.contentLength
  }

  /** What each state between two bytes promises. */
  predicate AtState(p: Parser) {
    match p.state
    case Dead | StartReq => true
    case ReqMethod => RequestLine(p) && 1 <= p.index <= |MethodString(p.verb)|
    case SpacesBeforeUrl | Schema | SchemaSlash | SchemaSlashSlash | ServerStart | Server | ServerWithAt
       | UrlPath | QueryStart | Query | FragmentStart | Fragment
       | HttpStart | HttpH | HttpHT | HttpHTT | HttpHTTP | HttpI | HttpIC | HttpMajor | HttpDot | HttpMinor | HttpEnd
       | LineAlmostDone => RequestLine(p)
    case HeaderFieldStart | HeadersAlmostDone => HeaderPart(p)
    case HeaderField | ValueDiscardWs | ValueDiscardWsAlmostDone | ValueDiscardLws => HeaderPart(p) && FieldState(p)
    case HeaderValue | ValueLws | HeaderAlmostDone => HeaderPart(p) && ValueState(p)
    case ChunkSizeStart => ChunkPart(p) && p.nread == 0
    case ChunkSize | ChunkParameters | ChunkSizeAlmostDone => ChunkPart(p) && p.contentLength < ULLONG_MAX
    case ChunkData => ChunkPart(p) && 0 < p.contentLength < ULLONG_MAX
    case ChunkDataAlmostDone => ChunkPart(p) && p.contentLength == 0
    case ChunkDataDone => ChunkPart(p)
    case BodyIdentity =>
      0 < p.contentLength < ULLONG_MAX && p.flags.contentLength && !p.transferEncoding && !p.flags.chunked
    case _ => false
  }

  predicate Sane(p: Parser) {
    p.errno == OK && p.nread <= MAX_HEADER_SIZE && p.index < 32 && !p.flags.skipBody && AtState(p)
  }

  /** The header states that the scan of a field name knows. */
  predicate KnownFieldState(h: HeaderState) {
    h in {HGeneral, HC, HCO, HCON, MatchingConnection, MatchingProxyConnection, MatchingContentLength,
          MatchingTransferEncoding, MatchingUpgrade, HConnection, HContentLength, HTransferEncoding, HUpgrade}
  }

  /** The word that the next byte of a field name or value is compared with. */
  function Matched(h: HeaderState): Bytes {
    match h
    case MatchingConnection => CONNECTION
    case MatchingProxyConnection => PROXY_CONNECTION
    case MatchingContentLength => CONTENT_LENGTH
    case MatchingTransferEncoding => TRANSFER_ENCODING
    case MatchingUpgrade | ConnMatchingUpgrade => UPGRADE
    case TEMatchingChunked => CHUNKED
    case ConnMatchingKeepAlive => KEEP_ALIVE
    case ConnMatchingClose => CLOSE
    case _ => []
  }

  /** Every table is read inside its bounds, a string up to its terminator, and the index fits its five bits. */
  predicate MatcherInBounds(p: Parser) {
    && p.index < 32
    && (p.state.ReqMethod? ==> p.index <= |MethodString(p.verb)|)
    && (p.state.HeaderField? || p.state.HeaderValue? ==>
          Matched(p.headerState) == [] || p.index + 1 < |Matched(p.headerState)|)
  }

  /** The assertions of the original at the branch of each state, for a parser whose current byte is counted. */
  predicate AssertionsHold(p: Parser) {
    match p.state
    case HeaderField => KnownFieldState(p.headerState)
    case HeaderValue => !p.headerState.HConnection? && !p.headerState.HTransferEncoding?
    case BodyIdentity => p.contentLength != 0 && p.contentLength != ULLONG_MAX
    case ChunkSizeStart => p.nread == 1 && p.flags.chunked
    case ChunkSize => p.flags.chunked
    case ChunkParameters => p.flags.chunked
    case ChunkSizeAlmostDone => p.flags.chunked
    case ChunkData => p.flags.chunked && p.contentLength != 0 && p.contentLength != ULLONG_MAX
    case ChunkDataAlmostDone => p.flags.chunked && p.contentLength == 0
    case ChunkDataDone => p.flags.chunked
    case _ => !p.state.MessageDone? && !p.state.HeadersDone? && !p.state.ValueStart?
  }

  // ---------- one byte ----------

  /** The part of the invariant that does not depend on the state. */
  predicate Fit(p: Parser) {
    p.errno == OK && p.nread <= MAX_HEADER_SIZE && p.index < 32 && !p.flags.skipBody
  }

  lemma HeadersDoneKeeps(p: Parser, ch: Byte, acts: seq<Act>)
    requires Fit(p) && HeaderPart(p) && !p.flags.trailing && !(p.transferEncoding && p.flags.contentLength)
    ensures var o := OnHeadersDone(p, ch, acts);
            o.parser.errno == OK ==> Sane(o.parser)
  {
    hide FieldState, ValueState;
  }

  lemma HeadersAlmostDoneKeeps(p: Parser, ch: Byte, acts: seq<Act>)
    requires Fit(p) && HeaderPart(p)
    ensures var o := OnHeadersAlmostDone(p, ch, acts);
            o.parser.errno == OK ==> Sane(o.parser)
  {
    hide FieldState, ValueState, OnHeadersDone;
    if !p.flags.trailing && !(p.transferEncoding && p.flags.contentLength) {
      var up := (p.flags.upgrade && p.flags.connUpgrade) || p.verb.CONNECT?;
      HeadersDoneKeeps(p.(state := HeadersDone, upgrade := up), ch, acts + [Tell(HeadersComplete)]);
    }
  }

  lemma FieldStartKeeps(p: Parser, ch: Byte, acts: seq<Act>)
    requires Fit(p) && HeaderPart(p)
    ensures var o := OnFieldStart(p, ch, acts);
            o.parser.errno == OK ==> Sane(o.parser)
  {
    hide ValueState, OnHeadersAlmostDone;
    HeadersAlmostDoneKeeps(p.(state := HeadersAlmostDone), ch, acts);
  }

  /** What the header state must remember when a value begins, or goes on after a fold. */
  predicate ReadyForValue(p: Parser) {
    match p.headerState
    case HTransferEncoding | TETokenStart => p.transferEncoding
    case HContentLengthWs => p.flags.contentLength && p.contentLength < ULLONG_MAX
    case _ => true
  }

  lemma FieldReady(p: Parser)
    requires FieldState(p) || ValueState(p)
    ensures ReadyForValue(p)
  {
  }

  lemma ValueStartParts(p: Parser, ch: Byte)
    requires Fit(p) && HeaderPart(p) && ReadyForValue(p)
    ensures var q := OnValueStart(p, ch).parser;
            q.errno == OK ==> Fit(q) && HeaderPart(q) && q.state.HeaderValue?
  {
    hide Lower, FieldState, ValueState;
  }

  lemma ValueStartState(p: Parser, ch: Byte)
    requires ReadyForValue(p)
    ensures var q := OnValueStart(p, ch).parser;
            q.errno == OK ==> ValueState(q)
  {
    hide Lower;
    WordLengths();
    hide CHUNKED, KEEP_ALIVE, CLOSE, UPGRADE;
  }

  lemma WordLengths()
    ensures |CHUNKED| == 7 && |KEEP_ALIVE| == 10 && |CLOSE| == 5 && |UPGRADE| == 7
  {
  }

  lemma ValueStartKeeps(p: Parser, ch: Byte)
    requires Fit(p) && HeaderPart(p) && ReadyForValue(p)
    ensures var o := OnValueStart(p, ch);
            o.parser.errno == OK ==> Sane(o.parser)
  {
    hide AtState, FieldState, ValueState, ReadyForValue, OnValueStart;
    var q := OnValueStart(p, ch).parser;
    ValueStartParts(p, ch);
    ValueStartState(p, ch);
    if q.errno == OK {
      ValueSane(q);
    }
  }

  lemma ValueSane(p: Parser)
    requires Fit(p) && HeaderPart(p) && ValueState(p)
    requires p.state.HeaderValue? || p.state.HeaderAlmostDone? || p.state.ValueLws?
    ensures Sane(p)
  {
  }

  lemma MatchWordParts(p: Parser, word: Bytes, c: Byte, whole: HeaderState, miss: HeaderState)
    ensures var q := MatchWord(p, word, c, whole, miss);
            q.flags == p.flags && q.transferEncoding == p.transferEncoding && q.contentLength == p.contentLength
  {
  }

  lemma MatchWordKeeps(p: Parser, word: Bytes, c: Byte, whole: HeaderState, miss: HeaderState)
    requires p.index + 1 < |word| <= 17
    ensures var q := MatchWord(p, word, c, whole, miss);
            && q == p.(index := p.index + 1, headerState := q.headerState)
            && q.headerState in {p.headerState, whole, miss}
            && q.index < |word|
            && (q.headerState == p.headerState ==> q.headerState in {whole, miss} || q.index + 1 < |word|)
  {
  }

  /** A letter of a field name at most notes a Transfer-Encoding. */
  lemma FieldCharParts(p: Parser, ch: Byte)
    requires HeaderPart(p)
    ensures HeaderPart(FieldChar(p, ch))
  {
    hide Token, MatchWord;
    var c := Token(ch);
    match p.headerState
    case MatchingConnection => MatchWordParts(p, CONNECTION, c, HConnection, HGeneral);
    case MatchingProxyConnection => MatchWordParts(p, PROXY_CONNECTION, c, HConnection, HGeneral);
    case MatchingContentLength => MatchWordParts(p, CONTENT_LENGTH, c, HContentLength, HGeneral);
    case MatchingTransferEncoding => MatchWordParts(p, TRANSFER_ENCODING, c, HTransferEncoding, HGeneral);
    case MatchingUpgrade => MatchWordParts(p, UPGRADE, c, HUpgrade, HGeneral);
    case _ =>
  }

  lemma FieldCharKeeps(p: Parser, ch: Byte)
    requires Fit(p) && HeaderPart(p) && FieldState(p)
    ensures var q := FieldChar(p, ch);
            FieldState(q) && q.index < 32 && HeaderPart(q)
            && q == p.(index := q.index, headerState := q.headerState, transferEncoding := q.transferEncoding)
  {
    hide MatchWord, Token, HeaderPart;
    FieldCharParts(p, ch);
    var c := Token(ch);
    match p.headerState
    case MatchingConnection => MatchWordKeeps(p, CONNECTION, c, HConnection, HGeneral);
    case MatchingProxyConnection => MatchWordKeeps(p, PROXY_CONNECTION, c, HConnection, HGeneral);
    case MatchingContentLength => MatchWordKeeps(p, CONTENT_LENGTH, c, HContentLength, HGeneral);
    case MatchingTransferEncoding => MatchWordKeeps(p, TRANSFER_ENCODING, c, HTransferEncoding, HGeneral);
    case MatchingUpgrade => MatchWordKeeps(p, UPGRADE, c, HUpgrade, HGeneral);
    case _ =>
  }

  lemma LengthCharKeeps(p: Parser, ch: Byte)
    requires Fit(p) && HeaderPart(p) && ValueState(p)
    requires p.headerState in {HContentLengthNum, HContentLengthWs}
    ensures var q := LengthChar(p, ch);
            q.errno == OK ==> Fit(q) && HeaderPart(q) && ValueState(q) && q.state == p.state
  {
  }

  lemma CodingCharKeeps(p: Parser, ch: Byte)
    requires Fit(p) && HeaderPart(p) && ValueState(p)
    requires p.headerState in {TETokenStart, TEMatchingChunked, TEToken, TEChunked}
    ensures var q := CodingChar(p, ch);
            Fit(q) && HeaderPart(q) && ValueState(q) && q.state == p.state
  {
    hide MatchWord, Lower, Token;
    if p.headerState.TEMatchingChunked? {
      MatchWordKeeps(p, CHUNKED, Lower(ch), TEChunked, TEToken);
    }
  }

  lemma OptionWordKeeps(p: Parser, ch: Byte)
    requires Fit(p) && HeaderPart(p) && ValueState(p)
    requires p.headerState.ConnMatchingKeepAlive? || p.headerState.ConnMatchingClose?
        || p.headerState.ConnMatchingUpgrade?
    ensures var q := ConnectionChar(p, ch);
            Fit(q) && HeaderPart(q) && ValueState(q) && q.state == p.state
  {
    hide MatchWord, Lower, Token;
    var c := Lower(ch);
    match p.headerState
    case ConnMatchingKeepAlive => MatchWordKeeps(p, KEEP_ALIVE, c, ConnKeepAlive, ConnToken);
    case ConnMatchingClose => MatchWordKeeps(p, CLOSE, c, ConnClose, ConnToken);
    case ConnMatchingUpgrade => MatchWordKeeps(p, UPGRADE, c, ConnUpgrade, ConnToken);
  }

  lemma OptionStartKeeps(p: Parser, ch: Byte)
    requires Fit(p) && HeaderPart(p) && p.headerState.ConnTokenStart? && p.index == 0
    ensures var q := ConnectionChar(p, ch);
            Fit(q) && HeaderPart(q) && ValueState(q) && q.state == p.state
  {
    hide Lower, Token, Fit, HeaderPart;
    var q := ConnectionChar(p, ch);
    assert q == p.(headerState := q.headerState);
    assert |KEEP_ALIVE| > 1 && |CLOSE| > 1 && |UPGRADE| > 1;
    MatcherApart(p, q.headerState);
  }

  /** The rest of the invariant does not depend on the matcher. */
  lemma MatcherApart(p: Parser, h: HeaderState)
    ensures var q := p.(headerState := h); (Fit(p) ==> Fit(q)) && (HeaderPart(p) ==> HeaderPart(q))
  {
  }

  lemma OptionEndKeeps(p: Parser, ch: Byte)
    requires Fit(p) && HeaderPart(p)
    requires p.headerState.ConnToken? || p.headerState.ConnKeepAlive? || p.headerState.ConnClose?
        || p.headerState.ConnUpgrade?
    ensures var q := ConnectionChar(p, ch);
            Fit(q) && HeaderPart(q) && ValueState(q) && q.state == p.state
  {
    hide Lower, Token, CHUNKED, KEEP_ALIVE, CLOSE, UPGRADE;
  }

  lemma ConnectionCharKeeps(p: Parser, ch: Byte)
    requires Fit(p) && HeaderPart(p) && ValueState(p)
    requires p.headerState.ConnToken? || p.headerState.ConnTokenStart? || p.headerState.ConnMatchingKeepAlive?
          || p.headerState.ConnMatchingClose? || p.headerState.ConnMatchingUpgrade? || p.headerState.ConnKeepAlive?
          || p.headerState.ConnClose? || p.headerState.ConnUpgrade?
    ensures var q := ConnectionChar(p, ch);
            Fit(q) && HeaderPart(q) && ValueState(q) && q.state == p.state
  {
    hide Fit, HeaderPart, ConnectionChar;
    match p.headerState
    case ConnMatchingKeepAlive | ConnMatchingClose | ConnMatchingUpgrade => OptionWordKeeps(p, ch);
    case ConnTokenStart => OptionStartKeeps(p, ch);
    case _ => OptionEndKeeps(p, ch);
  }

  lemma ValueCharKeeps(p: Parser, ch: Byte)
    requires Fit(p) && HeaderPart(p) && ValueState(p)
    ensures var q := ValueChar(p, ch);
            q.errno == OK ==> Fit(q) && HeaderPart(q) && ValueState(q) && q.state == p.state
  {
    hide LengthChar, CodingChar, ConnectionChar, IsHeaderChar;
    match p.headerState
    case HGeneral =>
    case HContentLengthNum | HContentLengthWs => LengthCharKeeps(p, ch);
    case TETokenStart | TEMatchingChunked | TEToken | TEChunked => CodingCharKeeps(p, ch);
    case _ => ConnectionCharKeeps(p, ch);
  }

  lemma ReqMethodKeeps(p: Parser, ch: Byte)
    requires p.state.ReqMethod? && Fit(p) && RequestLine(p) && 1 <= p.index <= |MethodString(p.verb)|
    ensures var q := OnReqMethod(p, ch).parser;
            && q == p.(index := q.index, verb := q.verb, state := q.state, errno := q.errno)
            && (q.errno == OK ==>
                  q.index < 32 && (q.state == p.state || q.state.SpacesBeforeUrl?)
                  && (q.state == p.state ==> 1 <= q.index <= |MethodString(q.verb)|))
  {
    hide MethodString;
    MethodLengths(p.verb);
    var r := Retarget(p.verb, p.index, ch);
    if r.Some? {
      MethodLengths(r.value);
      RetargetsWithin(p.verb, p.index, ch);
    }
  }

  lemma MethodLengths(m: Method)
    ensures 3 <= |MethodString(m)| <= 11
  {
  }

  lemma RetargetsWithin(m: Method, index: nat, ch: Byte)
    requires Retarget(m, index, ch).Some?
    ensures index < |MethodString(Retarget(m, index, ch).value)|
  {
    var r := Retarget(m, index, ch).value;
    if index >= 3 {
      assert r in {MKCALENDAR, PROPPATCH, UNLINK};
    }
    MethodLengths(r);
  }

  predicate InRequestLine(s: State) {
    s.ReqMethod? || s.SpacesBeforeUrl? || InUrl(s) || s.HttpStart? || s.HttpH? || s.HttpHT? || s.HttpHTT? || s.HttpHTTP?
    || s.HttpI? || s.HttpIC? || s.HttpMajor? || s.HttpDot? || s.HttpMinor? || s.HttpEnd? || s.LineAlmostDone?
    || s.Dead? || s.StartReq?
  }

  predicate InChunks(s: State) {
    s.ChunkSizeStart? || s.ChunkSize? || s.ChunkParameters? || s.ChunkSizeAlmostDone?
    || s.ChunkData? || s.ChunkDataAlmostDone? || s.ChunkDataDone? || s.BodyIdentity?
  }

  lemma MethodKeeps(p: Parser, ch: Byte)
    requires Fit(p) && AtState(p)
    requires p.state.Dead? || p.state.StartReq? || p.state.ReqMethod?
    ensures var o := Dispatch(p, ch);
            o.parser.errno == OK ==> Sane(o.parser)
  {
    hide FieldState, ValueState, OnReqMethod, MethodString, StartsMethod, FirstGuess, IsAlpha;
    MethodLengths(FirstGuess(ch));
    if p.state.ReqMethod? {
      ReqMethodKeeps(p, ch);
    }
  }

  lemma UrlKeeps(p: Parser, ch: Byte)
    requires Fit(p) && RequestLine(p) && (InUrl(p.state) || p.state.SpacesBeforeUrl?)
    ensures var o := Dispatch(p, ch);
            o.parser.errno == OK ==> Sane(o.parser)
  {
    hide FieldState, ValueState, MethodString, ParseUrlChar;
    UrlStatesClosed(p.state, ch);
    UrlStatesClosed(ServerStart, ch);
  }

  lemma VersionKeeps(p: Parser, ch: Byte)
    requires Fit(p) && RequestLine(p) && InRequestLine(p.state) && !InUrl(p.state) && !p.state.SpacesBeforeUrl?
    requires !p.state.Dead? && !p.state.StartReq? && !p.state.ReqMethod?
    ensures var o := Dispatch(p, ch);
            o.parser.errno == OK ==> Sane(o.parser)
  {
    hide FieldState, ValueState, MethodString;
  }

  lemma RequestLineKeeps(p: Parser, ch: Byte)
    requires Fit(p) && AtState(p) && InRequestLine(p.state)
    requires !p.state.Dead? && !p.state.StartReq? && !p.state.ReqMethod?
    ensures var o := Dispatch(p, ch);
            o.parser.errno == OK ==> Sane(o.parser)
  {
    hide Sane, Dispatch, FieldState, ValueState, MethodString, RequestLine;
    if InUrl(p.state) || p.state.SpacesBeforeUrl? {
      UrlKeeps(p, ch);
    } else {
      VersionKeeps(p, ch);
    }
  }

  lemma ChunkSizeKeeps(p: Parser, ch: Byte)
    requires Fit(p) && ChunkPart(p)
    requires p.state.ChunkSizeStart? || (p.state.ChunkSize? && p.contentLength < ULLONG_MAX)
    ensures var o := Dispatch(p, ch);
            o.parser.errno == OK ==> Sane(o.parser)
  {
    hide FieldState, ValueState, MethodString, Unhex;
  }

  lemma ChunkHeaderKeeps(p: Parser, ch: Byte)
    requires Fit(p) && ChunkPart(p)
    requires p.state.ChunkSizeStart? || p.state.ChunkSize? || p.state.ChunkParameters? || p.state.ChunkSizeAlmostDone?
    requires !p.state.ChunkSizeStart? ==> p.contentLength < ULLONG_MAX
    ensures var o := Dispatch(p, ch);
            o.parser.errno == OK ==> Sane(o.parser)
  {
    hide FieldState, ValueState, MethodString, OnChunkSizeStart, OnChunkSize;
    if p.state.ChunkSizeStart? || p.state.ChunkSize? {
      ChunkSizeKeeps(p, ch);
    }
  }

  lemma BodyKeeps(p: Parser, ch: Byte)
    requires Fit(p) && AtState(p)
    requires p.state.ChunkData? || p.state.ChunkDataAlmostDone? || p.state.ChunkDataDone? || p.state.BodyIdentity?
    ensures var o := Dispatch(p, ch);
            o.parser.errno == OK ==> Sane(o.parser)
  {
    hide FieldState, ValueState, MethodString, OnBodyIdentity, ShouldKeepAlive;
    if p.state.BodyIdentity? {
      IdentityKeeps(p);
    }
  }

  lemma IdentityKeeps(p: Parser)
    requires Fit(p) && AtState(p) && p.state.BodyIdentity?
    ensures var o := OnBodyIdentity(p);
            o.parser.errno == OK ==> Sane(o.parser)
  {
    hide FieldState, ValueState, MethodString, ShouldKeepAlive;
  }

  /** The end of a header leaves its flag. */
  lemma FinishKeeps(p: Parser)
    requires Fit(p) && HeaderPart(p) && (FieldState(p) || ValueState(p))
    ensures Fit(FinishHeader(p)) && HeaderPart(FinishHeader(p))
  {
    hide FieldState, ValueState, CONNECTION, TRANSFER_ENCODING, PROXY_CONNECTION, CONTENT_LENGTH, UPGRADE, CHUNKED,
        KEEP_ALIVE, CLOSE;
    CodingSeen(p);
    match p.headerState
    case ConnKeepAlive =>
    case ConnClose =>
    case TEChunked =>
    case ConnUpgrade =>
    case _ =>
  }

  lemma CodingSeen(p: Parser)
    requires FieldState(p) || ValueState(p)
    ensures p.headerState.TEChunked? ==> p.transferEncoding
  {
  }

  lemma DiscardLwsKeeps(p: Parser, ch: Byte)
    requires Fit(p) && HeaderPart(p) && FieldState(p) && p.state.ValueDiscardLws?
    ensures var o := OnValueDiscardLws(p, ch);
            o.parser.errno == OK ==> Sane(o.parser)
  {
    hide OnFieldStart, AtState, FieldState, FinishHeader;
    FinishKeeps(p);
    FieldStartKeeps(FinishHeader(p).(state := HeaderFieldStart), ch, [Mark(ValueKind), Flush(ValueKind)]);
    SameField(p);
    FieldSane(p.(state := ValueDiscardWs));
  }

  lemma FieldNameKeeps(p: Parser, ch: Byte)
    requires Fit(p) && HeaderPart(p) && FieldState(p)
    requires p.state.HeaderField? || p.state.ValueDiscardWs? || p.state.ValueDiscardWsAlmostDone?
        || p.state.ValueDiscardLws?
    ensures var o := Dispatch(p, ch);
            o.parser.errno == OK ==> Sane(o.parser)
  {
    hide OnHeaderField, OnValueDiscardWs, OnValueDiscardLws, ValueState, FieldState, AtState, Fit, HeaderPart;
    match p.state
    case ValueDiscardLws => DiscardLwsKeeps(p, ch);
    case ValueDiscardWs => DiscardWsKeeps(p, ch);
    case ValueDiscardWsAlmostDone =>
      SameField(p);
      FieldSane(p.(state := ValueDiscardLws));
    case HeaderField => NameKeeps(p, ch);
  }

  lemma DiscardWsKeeps(p: Parser, ch: Byte)
    requires Fit(p) && HeaderPart(p) && FieldState(p) && p.state.ValueDiscardWs?
    ensures var o := OnValueDiscardWs(p, ch);
            o.parser.errno == OK ==> Sane(o.parser)
  {
    hide OnValueStart, ValueState, FieldState, AtState;
    FieldReady(p);
    SameField(p);
    ValueStartKeeps(p, ch);
    FieldSane(p);
    FieldSane(p.(state := ValueDiscardWsAlmostDone));
    FieldSane(p.(state := ValueDiscardLws));
  }

  lemma NameKeeps(p: Parser, ch: Byte)
    requires Fit(p) && HeaderPart(p) && FieldState(p) && p.state.HeaderField?
    ensures var o := OnHeaderField(p, ch);
            o.parser.errno == OK ==> Sane(o.parser)
  {
    hide FieldChar, Token, ValueState, FieldState, AtState;
    SameField(p);
    FieldCharKeeps(p, ch);
    FieldSane(FieldChar(p, ch));
    FieldSane(p.(state := ValueDiscardWs));
  }

  lemma FieldSane(p: Parser)
    requires Fit(p) && HeaderPart(p) && FieldState(p)
    requires p.state.HeaderField? || p.state.ValueDiscardWs? || p.state.ValueDiscardWsAlmostDone?
        || p.state.ValueDiscardLws?
    ensures Sane(p)
  {
  }

  /** The field part of the invariant does not look at the state. */
  lemma SameField(p: Parser)
    ensures forall s :: FieldState(p.(state := s)) == FieldState(p)
    ensures forall s :: Fit(p.(state := s)) == Fit(p) && HeaderPart(p.(state := s)) == HeaderPart(p)
  {
  }

  lemma LwsKeeps(p: Parser, ch: Byte)
    requires Fit(p) && HeaderPart(p) && ValueState(p) && p.state.ValueLws?
    ensures var o := OnValueLws(p, ch);
            o.parser.errno == OK ==> Sane(o.parser)
  {
    hide OnFieldStart, OnValueStart, AtState, FieldState;
    var h := if p.headerState.HContentLengthNum? then HContentLengthWs else p.headerState;
    var q := p.(headerState := h, state := ValueStart);
    assert ValueState(q);
    hide ValueState;
    FieldReady(q);
    ValueStartKeeps(q, ch);
    FinishKeeps(p);
    FieldStartKeeps(FinishHeader(p).(state := HeaderFieldStart), ch, []);
  }

  lemma ValueKeeps(p: Parser, ch: Byte)
    requires Fit(p) && HeaderPart(p) && ValueState(p)
    requires p.state.HeaderValue? || p.state.ValueLws? || p.state.HeaderAlmostDone?
    ensures var o := Dispatch(p, ch);
            o.parser.errno == OK ==> Sane(o.parser)
  {
    hide MethodString, OnValueLws, ValueChar, ValueState, FieldState, AtState;
    if p.state.ValueLws? {
      LwsKeeps(p, ch);
    } else {
      ValueCharKeeps(p, ch);
      SameValue(p);
      var q := Dispatch(p, ch).parser;
      if q.errno == OK {
        ValueSane(q);
      }
    }
  }

  /** The value part of the invariant does not look at the state. */
  lemma SameValue(p: Parser)
    ensures forall s :: ValueState(p.(state := s)) == ValueState(p)
  {
  }

  lemma ChunksKeep(p: Parser, ch: Byte)
    requires Fit(p) && InChunks(p.state) && AtState(p.(nread := 0))
    ensures var o := Dispatch(p, ch);
            o.parser.errno == OK ==> Sane(o.parser)
  {
    hide Dispatch, FieldState, ValueState, MethodString;
    match p.state
    case ChunkData | ChunkDataAlmostDone | ChunkDataDone | BodyIdentity => BodyKeeps(p, ch);
    case _ => ChunkHeaderKeeps(p, ch);
  }

  lemma HeadersKeep(p: Parser, ch: Byte)
    requires Fit(p) && AtState(p) && !InRequestLine(p.state) && !InChunks(p.state)
    ensures var o := Dispatch(p, ch);
            o.parser.errno == OK ==> Sane(o.parser)
  {
    hide FieldState, ValueState, MethodString, OnFieldStart, OnHeadersAlmostDone;
    match p.state
    case HeadersAlmostDone => HeadersAlmostDoneKeeps(p, ch, []);
    case HeaderFieldStart => FieldStartKeeps(p, ch, []);
    case HeaderValue | ValueLws | HeaderAlmostDone =>
      hide Dispatch;
      ValueKeeps(p, ch);
    case _ =>
      hide Dispatch;
      FieldNameKeeps(p, ch);
  }

  /** Counting a byte changes nothing that the promise of a state is about, but the count. */
  lemma CountKeeps(p: Parser)
    requires Sane(p) && Count(p).errno == OK
    ensures Fit(Count(p)) && Count(p).state == p.state
    ensures InChunks(p.state) ==> AtState(Count(p).(nread := 0))
    ensures !InChunks(p.state) ==> AtState(Count(p))
  {
    hide AtState;
    CountlessState(p, Count(p).nread);
  }

  lemma CountlessState(p: Parser, n: nat)
    requires AtState(p)
    ensures AtState(p.(nread := 0))
    ensures !p.state.ChunkSizeStart? ==> AtState(p.(nread := n))
  {
    hide FieldState, ValueState, RequestLine, HeaderPart, ChunkPart, MethodString;
    CountlessParts(p, 0);
    CountlessParts(p, n);
  }

  lemma CountlessParts(p: Parser, n: nat)
    ensures var q := p.(nread := n);
            && FieldState(q) == FieldState(p) && ValueState(q) == ValueState(p)
            && RequestLine(q) == RequestLine(p) && HeaderPart(q) == HeaderPart(p) && ChunkPart(q) == ChunkPart(p)
  {
  }

  lemma AssertionsFollow(p: Parser)
    requires Sane(p) && Count(p).errno == OK
    ensures AssertionsHold(Count(p))
  {
    hide MethodString, CONNECTION, TRANSFER_ENCODING, PROXY_CONNECTION, CONTENT_LENGTH, UPGRADE, CHUNKED, KEEP_ALIVE,
        CLOSE;
  }

  lemma BoundsFollow(p: Parser)
    requires Sane(p)
    ensures MatcherInBounds(p)
  {
    hide MethodString, CONNECTION, TRANSFER_ENCODING, PROXY_CONNECTION, CONTENT_LENGTH, UPGRADE, CHUNKED, KEEP_ALIVE,
        CLOSE;
  }

  /** One byte: the assertions of its branch hold, and the invariant is kept unless the byte is an error. */
  lemma StepKeeps(p: Parser, ch: Byte)
    requires Sane(p) && Count(p).errno == OK
    ensures AssertionsHold(Count(p))
    ensures var o := Dispatch(Count(p), ch);
            o.parser.errno == OK ==> Sane(o.parser)
  {
    hide Sane, AtState, Dispatch, AssertionsHold;
    CountKeeps(p);
    AssertionsFollow(p);
    if p.state.Dead? || p.state.StartReq? || p.state.ReqMethod? {
      MethodKeeps(Count(p), ch);
    } else if InRequestLine(p.state) {
      RequestLineKeeps(Count(p), ch);
    } else if InChunks(p.state) {
      ChunksKeep(Count(p), ch);
    } else {
      HeadersKeep(Count(p), ch);
    }
  }

  /** Over every run from a sane state, the invariant holds until the first error. */
  lemma {:induction false} SaneAlways(s: Sim, bytes: Bytes)
    requires Sane(s.parser)
    ensures Run(s, bytes).parser.errno == OK ==> Sane(Run(s, bytes).parser)
    decreases |bytes|
  {
    hide Sane, AtState, Dispatch, AssertionsHold;
    if bytes != [] {
      var n := |bytes| - 1;
      SaneAlways(s, bytes[..n]);
      var t := Run(s, bytes[..n]);
      if !Halted(t) && Count(t.parser).errno == OK {
        StepKeeps(t.parser, bytes[n]);
      }
    }
  }

  /** A new parser is sane. */
  lemma InitialSane()
    ensures Sane(INITIAL)
  {
  }

  /** Every assertion holds at every byte of every stream that a new parser reads. */
  lemma {:induction false} AssertionsAlwaysHold(bytes: Bytes, k: nat)
    requires k < |bytes|
    ensures var t := Run(Enter(INITIAL, []), bytes[..k]);
            !Halted(t) && Count(t.parser).errno == OK ==> AssertionsHold(Count(t.parser)) && MatcherInBounds(t.parser)
  {
    hide Sane, AtState, Dispatch, AssertionsHold, MatcherInBounds;
    InitialSane();
    SaneAlways(Enter(INITIAL, []), bytes[..k]);
    var t := Run(Enter(INITIAL, []), bytes[..k]);
    if !Halted(t) && Count(t.parser).errno == OK {
      BoundsFollow(t.parser);
      StepKeeps(t.parser, bytes[k]);
    }
  }
}
