/** Bytes, character classes and the parser record of the HTTP request parser. */
module HttpTypes {

  type Byte = c: char | c as int < 256

  type Bytes = seq<Byte>

  const CR: Byte := '\r'
  const LF: Byte := '\n'
  const TAB: Byte := '\t'
  const NUL: Byte := '\0'
  const FF: Byte := 12 as char

  const ULLONG_MAX: int := 0xFFFF_FFFF_FFFF_FFFF
  const MAX_HEADER_SIZE: int := 80 * 1024

  type u64 = k: int | 0 <= k <= 0xFFFF_FFFF_FFFF_FFFF

  // ---------- character classes ----------

  /** `c | 0x20` */
  function Lower(c: Byte): Byte {
    if (c as int / 32) % 2 == 0 then (c as int + 32) as char else c
  }

  predicate IsAlpha(c: Byte) {
    'a' <= c <= 'z' || 'A' <= c <= 'Z'
  }

  predicate IsNum(c: Byte) {
    '0' <= c <= '9'
  }

  predicate IsAlphaNum(c: Byte) {
    IsAlpha(c) || IsNum(c)
  }

  predicate IsHex(c: Byte) {
    IsNum(c) || 'a' <= c <= 'f' || 'A' <= c <= 'F'
  }

  predicate IsMark(c: Byte) {
    c == '-' || c == '_' || c == '.' || c == '!' || c == '~' || c == '*' || c == '\'' || c == '(' || c == ')'
  }

  predicate IsUserInfoChar(c: Byte) {
    IsAlphaNum(c) || IsMark(c) || c == '%' || c == ';' || c == ':' || c == '&' || c == '=' || c == '+' || c == '$'
        || c == ','
  }

  predicate IsUrlChar(c: Byte) {
    '!' <= c <= '~' && c != '#' && c != '?'
  }

  predicate IsHostChar(c: Byte) {
    IsAlphaNum(c) || c == '.' || c == '-'
  }

  predicate IsHeaderChar(c: Byte) {
    c == CR || c == LF || c == TAB || (c > (31 as char) && c != (127 as char))
  }

  predicate IsToken(c: Byte) {
    IsAlphaNum(c) || c == '!' || '#' <= c <= '\'' || c == '*' || c == '+' || c == '-' || c == '.' || '^' <= c <= '`'
        || c == '|' || c == '~'
  }

  /** The token table: letters are lowered, a byte that is no token character gives NUL. */
  function Token(c: Byte): Byte {
    if !IsToken(c) then NUL
    else if 'A' <= c <= 'Z' then (c as int + 32) as char
    else c
  }

  /** The table of hexadecimal digits.  Its initialiser lists 128 entries, so every byte from 0x80 on reads as zero. */
  function Unhex(c: Byte): (d: int)
    ensures -1 <= d <= 15
  {
    if '0' <= c <= '9' then c as int - '0' as int
    else if 'a' <= c <= 'f' then c as int - 'a' as int + 10
    else if 'A' <= c <= 'F' then c as int - 'A' as int + 10
    else if c as int >= 128 then 0
    else -1
  }

  // ---------- decimal numbers ----------

  predicate AllNum(digits: Bytes) {
    forall i :: 0 <= i < |digits| ==> IsNum(digits[i])
  }

  function Decimal(digits: Bytes): nat
    requires AllNum(digits)
    decreases |digits|
  {
    if digits == [] then 0
    else Decimal(digits[..|digits| - 1]) * 10 + (digits[|digits| - 1] as int - '0' as int)
  }

  // ---------- methods ----------

  datatype Method =
    | DELETE | GET | HEAD | POST | PUT | CONNECT | OPTIONS | TRACE | COPY | LOCK | MKCOL | MOVE
    | PROPFIND | PROPPATCH | SEARCH | UNLOCK | BIND | REBIND | UNBIND | ACL | REPORT | MKACTIVITY
    | CHECKOUT | MERGE | MSEARCH | NOTIFY | SUBSCRIBE | UNSUBSCRIBE | PATCH | PURGE | MKCALENDAR
    | LINK | UNLINK | SOURCE

  function MethodString(m: Method): Bytes {
    match m
    case DELETE => "DELETE" case GET => "GET" case HEAD => "HEAD" case POST => "POST" case PUT => "PUT"
    case CONNECT => "CONNECT" case OPTIONS => "OPTIONS" case TRACE => "TRACE" case COPY => "COPY"
    case LOCK => "LOCK" case MKCOL => "MKCOL" case MOVE => "MOVE" case PROPFIND => "PROPFIND"
    case PROPPATCH => "PROPPATCH" case SEARCH => "SEARCH" case UNLOCK => "UNLOCK" case BIND => "BIND"
    case REBIND => "REBIND" case UNBIND => "UNBIND" case ACL => "ACL" case REPORT => "REPORT"
    case MKACTIVITY => "MKACTIVITY" case CHECKOUT => "CHECKOUT" case MERGE => "MERGE"
    case MSEARCH => "M-SEARCH" case NOTIFY => "NOTIFY" case SUBSCRIBE => "SUBSCRIBE"
    case UNSUBSCRIBE => "UNSUBSCRIBE" case PATCH => "PATCH" case PURGE => "PURGE"
    case MKCALENDAR => "MKCALENDAR" case LINK => "LINK" case UNLINK => "UNLINK" case SOURCE => "SOURCE"
  }

  // ---------- states ----------

  datatype State =
    | Dead | StartReq | ReqMethod | SpacesBeforeUrl
    | Schema | SchemaSlash | SchemaSlashSlash | ServerStart | Server | ServerWithAt
    | UrlPath | QueryStart | Query | FragmentStart | Fragment
    | HttpStart | HttpH | HttpHT | HttpHTT | HttpHTTP | HttpI | HttpIC | HttpMajor | HttpDot | HttpMinor | HttpEnd
    | LineAlmostDone
    | HeaderFieldStart | HeaderField | ValueDiscardWs | ValueDiscardWsAlmostDone | ValueDiscardLws
    | ValueStart | HeaderValue | ValueLws | HeaderAlmostDone
    | ChunkSizeStart | ChunkSize | ChunkParameters | ChunkSizeAlmostDone
    | HeadersAlmostDone | HeadersDone
    | ChunkData | ChunkDataAlmostDone | ChunkDataDone | BodyIdentity | MessageDone

  datatype HeaderState =
    | HGeneral | HC | HCO | HCON
    | MatchingConnection | MatchingProxyConnection | MatchingContentLength | MatchingTransferEncoding | MatchingUpgrade
    | HConnection | HContentLength | HContentLengthNum | HContentLengthWs | HTransferEncoding | HUpgrade
    | TETokenStart | TEMatchingChunked | TEToken
    | ConnTokenStart | ConnMatchingKeepAlive | ConnMatchingClose | ConnMatchingUpgrade | ConnToken
    | TEChunked | ConnKeepAlive | ConnClose | ConnUpgrade

  datatype Errno =
    | OK | InvalidEofState | HeaderOverflow | ClosedConnection | InvalidVersion | InvalidMethod | InvalidUrl
    | LfExpected | InvalidHeaderToken | InvalidContentLength | UnexpectedContentLength | InvalidChunkSize
    | InvalidConstant | Strict | InvalidTransferEncoding

  /** The bits of the `flags` field. */
  datatype Flags = Flags(
    chunked: bool, keepAlive: bool, close: bool, connUpgrade: bool,
    trailing: bool, upgrade: bool, skipBody: bool, contentLength: bool)

  const NO_FLAGS := Flags(false, false, false, false, false, false, false, false)

  datatype Parser = Parser(
    state: State, headerState: HeaderState, index: nat, flags: Flags, transferEncoding: bool,
    nread: nat, contentLength: u64, httpMajor: nat, httpMinor: nat, verb: Method, errno: Errno, upgrade: bool)

  /** A request parser after its initialisation. */
  const INITIAL := Parser(StartReq, HGeneral, 0, NO_FLAGS, false, 0, 0, 0, 0, DELETE, OK, false)

  /** The states up to the end of the headers, in which bytes count against the header limit. */
  predicate ParsingHeader(s: State) {
    !(s.ChunkData? || s.ChunkDataAlmostDone? || s.ChunkDataDone? || s.BodyIdentity? || s.MessageDone?)
  }

  predicate InUrl(s: State) {
    s.Schema? || s.SchemaSlash? || s.SchemaSlashSlash? || s.ServerStart? || s.Server? || s.ServerWithAt?
    || s.UrlPath? || s.QueryStart? || s.Query? || s.FragmentStart? || s.Fragment?
  }

  predicate ShouldKeepAlive(p: Parser) {
    if p.httpMajor > 0 && p.httpMinor > 0 then !p.flags.close else p.flags.keepAlive
  }

  /** The request is complete: the parser waits for another one, or for none. */
  predicate RequestIsDone(p: Parser) {
    p.state.Dead? || p.state.StartReq?
  }
}
