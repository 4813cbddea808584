/** One request in full: the parser is at work on requests as they are sent. */
module HttpExample {
  import opened HttpTypes
  import opened HttpUrlText
  import opened HttpStep
  import opened HttpRun
  import opened HttpFragment
  import opened HttpNames
  import opened HttpLists
  import opened HttpHeaders
  import opened HttpHead
  import opened HttpLine
  import opened HttpRequest

  const LINE := RequestLine([], 3, 0, "/", Version(0, false, 1, 1), false)
  const LENGTH := Header("Content-Length", " ", "5", false)
  const POST_HELLO := Request(LINE, [LENGTH], false, Declared("hello"))

  const WIRE: Bytes := "POST / HTTP/1.1\r\nContent-Length: 5\r\n\r\nhello"

  const SEEN: Log := [
    Note(MessageBegin), Data(UrlKind, "/"), Data(FieldKind, "Content-Length"), Data(ValueKind, "5"),
    Note(HeadersComplete), Data(BodyKind, "hello"), Note(MessageComplete)]

  lemma SlashFits()
    ensures RequestUrl(false, "/")
  {
    var k := CutOf(false, "/");
    assert k.serverEnd == 0 && k.serverFrom == 0 && k.schemeEnd == 0;
    assert FitsAt("/", k, 0);
  }

  lemma LineIsWell()
    ensures WellLine(LINE) && LineText(LINE) == "POST / HTTP/1.1\r\n"
  {
    SlashFits();
    hide RequestUrl;
  }

  lemma LowerOf()
    ensures LowerCase("Content-Length") == "content-length"
  {
    var w: Bytes := "Content-Length";
    forall i | 0 <= i < |w| ensures LowerCase(w)[i] == LowerByte(w[i]) {
      LowerAt(w, i);
    }
  }

  lemma LengthIsWell()
    ensures WellHeader(LENGTH) && HeaderText(LENGTH) == "Content-Length: 5\r\n"
    ensures MeaningOf(LENGTH.name) == IsLength && IsLengthValue("5") && LeadingDigits("5") == "5" && Decimal("5") == 5
  {
    LowerOf();
    hide LowerCase;
    assert "5"[..0] == [] && LeadingDigits([]) == [];
  }

  lemma HeadersSay()
    ensures var hs := [LENGTH];
            && WellHeaders(hs) && LengthsFit(hs) && DeclaredLength(hs) == 5
            && HeadersText(hs) == "Content-Length: 5\r\n"
            && HeaderEvents(hs) == [Data(FieldKind, "Content-Length"), Data(ValueKind, "5")]
            && !IsCoded(hs) && !IsChunked(hs) && !IsUpgraded(hs) && forall word :: !Wants(hs, word)
  {
    LengthIsWell();
    LowerOf();
    hide LowerCase, MeaningOf, WellHeader, HeaderText, IsLengthValue, LeadingDigits, Decimal, HasOption, EndsChunked;
    assert [LENGTH][..0] == [];
  }

  lemma IsWellRequest()
    ensures WellRequest(POST_HELLO) && KeepsOpen(POST_HELLO) && !HandsOver(POST_HELLO)
  {
    LineIsWell();
    HeadersSay();
    hide WellLine, WellHeaders, LengthsFit, DeclaredLength, IsCoded, IsChunked, IsUpgraded, Wants;
  }

  const HEAD: Bytes := "POST / HTTP/1.1\r\nContent-Length: 5\r\n\r\n"

  lemma HeadParts()
    ensures HEAD == "POST / HTTP/1.1\r\n" + "Content-Length: 5\r\n" + EndOfLine(false) && |HEAD| < 100
  {
  }

  lemma HeadIs()
    ensures WellLine(LINE) && HeadText(POST_HELLO) == HEAD && |HEAD| < 100
  {
    LineIsWell();
    HeadersSay();
    HeadParts();
    hide HEAD, WellLine, LineText, HeadersText, EndOfLine;
  }

  lemma TextIs()
    ensures WellLine(LINE) && RequestText(POST_HELLO) == WIRE
  {
    HeadIs();
    WireIs();
    hide WellLine, HeadText, HEAD, WIRE;
  }

  lemma WireIs()
    ensures WIRE == HEAD + "hello" && WIRE != [] && Concat([]) == []
  {
  }

  lemma EventsAre()
    ensures RequestEvents(POST_HELLO) == SEEN
  {
    HeadersSay();
    hide HeaderEvents;
  }

  /** However it is cut, it is handed over part by part, its body to the byte, and the next request is awaited. */
  lemma PostHello(pieces: seq<Bytes>)
    requires Concat(pieces) == WIRE && forall i :: 0 <= i < |pieces| ==> pieces[i] != []
    ensures var f := Feed(INITIAL, [], pieces);
            f.log == SEEN && f.parser.errno == OK && f.parser.state.StartReq? && f.consumed == |WIRE|
  {
    var rs := [POST_HELLO];
    IsWellRequest();
    TextIs();
    HeadIs();
    EventsAre();
    WireIs();
    hide HEAD, WellRequest, KeepsOpen, HandsOver, RequestText, RequestEvents, HeadText, WellLine, Feed, WIRE, SEEN,
      Concat;
    assert rs[1..] == [] && RequestText(POST_HELLO) + [] == RequestText(POST_HELLO);
    assert RequestEvents(POST_HELLO) + [] == RequestEvents(POST_HELLO);
    RequestsServed(rs, pieces);
  }
}
