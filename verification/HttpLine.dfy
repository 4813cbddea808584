/** The request line: the word of the method, the URL and the version. */
module HttpLine {
  import opened HttpTypes
  import opened HttpUrlChar
  import opened HttpUrlFields
  import opened HttpUrlText
  import opened HttpStep
  import opened HttpRun
  import opened HttpMethod
  import opened HttpHeaders

  // ---------- request lines ----------

  /** `HTTP/` or `ICE/` and two digits, behind one space and perhaps more; or nothing, which is version 0.9. */
  datatype Version = NoVersion | Version(more: nat, ice: bool, major: nat, minor: nat)

  /** Line ends, the word of method number `verb`, one space and perhaps more, the URL, and the version. */
  datatype RequestLine = RequestLine(before: Bytes, verb: nat, more: nat, url: Bytes, version: Version, bare: bool)

  function Spaces(n: nat): (spaces: Bytes)
    ensures |spaces| == n
  {
    if n == 0 then [] else Spaces(n - 1) + [' ']
  }

  function DigitByte(d: nat): Byte
    requires d < 10
  {
    ('0' as int + d) as char
  }

  function Protocol(ice: bool): Bytes {
    if ice then "ICE/" else "HTTP/"
  }

  predicate WellVersion(v: Version) {
    v.Version? ==> v.major < 10 && v.minor < 10
  }

  function VersionText(v: Version): Bytes
    requires WellVersion(v)
  {
    match v
    case NoVersion => []
    case Version(more, ice, major, minor) =>
      [' '] + Spaces(more) + Protocol(ice) + [DigitByte(major)] + ['.'] + [DigitByte(minor)]
  }

  /** A URL that a request may have: of a scheme there is more than its `://`. */
  predicate RequestUrl(isConnect: bool, url: Bytes) {
    Fits(isConnect, url) && CutOf(isConnect, url).serverFrom < |url|
  }

  predicate WellLine(l: RequestLine) {
    && (forall i :: 0 <= i < |l.before| ==> l.before[i] == '\r' || l.before[i] == '\n')
    && l.verb < 34 && RequestUrl(WordNumber(l.verb) == "CONNECT", l.url) && WellVersion(l.version)
    && (l.version.Version? && l.version.ice ==> WordNumber(l.verb) == "SOURCE")
  }

  function LineText(l: RequestLine): Bytes
    requires WellLine(l)
  {
    l.before + (WordNumber(l.verb) + [' ']) + Spaces(l.more) + l.url + VersionText(l.version) + EndOfLine(l.bare)
  }

  // ---------- before the method ----------

  lemma BeforeStep(s: Sim, c: Byte)
    requires !Halted(s) && s.parser.state.StartReq? && s.view.mark.NoMark? && s.parser.nread < 81920
    requires c == '\r' || c == '\n'
    ensures StepByte(s, c) == Moved(s, StartReq, 1)
  {
    hide OnStartReq;
    assert OnStartReq(Count(s.parser), c) == Out(Count(s.parser), [], false) by {
      StartOnLineEnd(Count(s.parser), c);
    }
  }

  lemma StartOnLineEnd(p: Parser, c: Byte)
    requires c == '\r' || c == '\n'
    ensures OnStartReq(p, c) == Out(p, [], false)
  {
  }

  lemma {:induction false} BeforeRun(s: Sim, before: Bytes)
    requires !Halted(s) && s.parser.state.StartReq? && s.view.mark.NoMark? && s.parser.nread + |before| <= 81920
    requires forall i :: 0 <= i < |before| ==> before[i] == '\r' || before[i] == '\n'
    ensures Run(s, before) == Moved(s, StartReq, |before|)
    decreases |before|
  {
    hide StepByte;
    if before != [] {
      var n := |before| - 1;
      BeforeRun(s, before[..n]);
      BeforeStep(Run(s, before[..n]), before[n]);
    }
  }

  // ---------- spaces ----------

  lemma SpaceStep(s: Sim)
    requires !Halted(s) && s.view.mark.NoMark? && s.parser.nread < 81920
    requires s.parser.state.SpacesBeforeUrl? || s.parser.state.HttpStart?
    ensures StepByte(s, ' ') == Moved(s, s.parser.state, 1)
  {
    hide OnUrlChar;
  }

  lemma {:induction false} SpacesRun(s: Sim, n: nat)
    requires !Halted(s) && s.view.mark.NoMark? && s.parser.nread + n <= 81920
    requires s.parser.state.SpacesBeforeUrl? || s.parser.state.HttpStart?
    ensures Run(s, Spaces(n)) == Moved(s, s.parser.state, n)
  {
    hide StepByte;
    if n > 0 {
      SpacesRun(s, n - 1);
      assert Spaces(n)[..n - 1] == Spaces(n - 1);
      SpaceStep(Run(s, Spaces(n - 1)));
    }
  }

  // ---------- the URL ----------

  /** The parser in the URL, behind its first bytes. */
  function InUrlAt(s: Sim, isConnect: bool, part: Bytes): Sim {
    Sim(s.parser.(state := UrlState(StartState(isConnect), part), nread := s.parser.nread + |part|),
        s.view.(mark := Open(UrlKind, part)), s.consumed + |part|, false)
  }

  lemma UrlFirst(s: Sim, c: Byte)
    requires !Halted(s) && s.parser.state.SpacesBeforeUrl? && s.view.mark.NoMark? && s.parser.nread < 81920
    requires !ParseUrlChar(StartState(s.parser.verb.CONNECT?), c).Dead?
    ensures StepByte(s, c) ==
            Sim(s.parser.(state := ParseUrlChar(StartState(s.parser.verb.CONNECT?), c), nread := s.parser.nread + 1),
                s.view.(mark := Open(UrlKind, [c])), s.consumed + 1, false)
  {
    assert c != ' ' && [] + [c] == [c];
    PerformOne(s.view, Mark(UrlKind), c);
    hide ParseUrlChar, PerformAll;
  }

  lemma UrlStep(s: Sim, c: Byte, run: Bytes)
    requires !Halted(s) && InUrl(s.parser.state) && s.view.mark == Open(UrlKind, run) && s.parser.nread < 81920
    requires !ParseUrlChar(s.parser.state, c).Dead?
    ensures StepByte(s, c) ==
            Sim(s.parser.(state := ParseUrlChar(s.parser.state, c), nread := s.parser.nread + 1),
                s.view.(mark := Open(UrlKind, run + [c])), s.consumed + 1, false)
  {
    assert c != ' ' && c != CR && c != LF;
    hide ParseUrlChar;
  }

  lemma {:induction false} UrlRun(s: Sim, url: Bytes, n: nat)
    requires !Halted(s) && s.parser.state.SpacesBeforeUrl? && s.view.mark.NoMark?
    requires 0 < n <= |url| && s.parser.nread + n <= 81920 && Fits(s.parser.verb.CONNECT?, url)
    ensures Run(s, url[..n]) == InUrlAt(s, s.parser.verb.CONNECT?, url[..n])
    ensures InUrl(UrlState(StartState(s.parser.verb.CONNECT?), url[..n]))
    decreases n
  {
    hide StepByte, ParseUrlChar, Fits, Run, UrlState;
    var isConnect, m := s.parser.verb.CONNECT?, n - 1;
    var start, part, c := StartState(isConnect), url[..m], url[m];
    assert url[..n] == part + [c];
    AliveAt(isConnect, url, n);
    RunMore(s, part, c);
    UrlStateNext(start, part, c);
    if m == 0 {
      assert part == [] && part + [c] == [c];
      RunNothing(s);
      NoUrl(start);
      UrlFirst(s, c);
      UrlStatesClosed(start, c);
    } else {
      UrlRun(s, url, m);
      UrlStep(Run(s, part), c, part);
      UrlStatesClosed(UrlState(start, part), c);
    }
  }

  lemma NoUrl(start: State)
    ensures UrlState(start, []) == start
  {
  }

  lemma AliveAt(isConnect: bool, url: Bytes, n: nat)
    requires Fits(isConnect, url) && n <= |url|
    ensures !UrlState(StartState(isConnect), url[..n]).Dead?
  {
    hide FitsAt, CutOf, UrlState;
    UrlStates(isConnect, url, n);
  }

  predicate MayEndUrl(s: State) {
    s.Server? || s.ServerWithAt? || s.UrlPath? || s.QueryStart? || s.Query? || s.FragmentStart? || s.Fragment?
  }

  lemma RequestUrlEnds(isConnect: bool, url: Bytes)
    requires RequestUrl(isConnect, url)
    ensures MayEndUrl(UrlState(StartState(isConnect), url))
  {
    hide FitsAt, CutOf, UrlState;
    UrlStates(isConnect, url, |url|);
    assert url[..|url|] == url;
  }

  lemma UrlEndDispatch(p: Parser, c: Byte)
    requires MayEndUrl(p.state) && (c == ' ' || c == '\r' || c == '\n')
    ensures var q := if c == ' ' then p.(state := HttpStart)
                     else p.(httpMajor := 0, httpMinor := 9,
                             state := if c == '\r' then LineAlmostDone else HeaderFieldStart);
            Dispatch(p, c) == Out(q, [Flush(UrlKind)], false)
  {
    hide ParseUrlChar;
  }

  lemma FlushStep(s: Sim, c: Byte, q: Parser, run: Bytes)
    requires !Halted(s) && s.view.mark == Open(UrlKind, run) && s.parser.nread < 81920 && ParsingHeader(s.parser.state)
    requires Dispatch(Count(s.parser), c) == Out(q, [Flush(UrlKind)], false) && q.errno == OK
    ensures StepByte(s, c) == Sim(q, View(Emit(s.view.log, UrlKind, run), NoMark), s.consumed + 1, false)
  {
    PerformOne(s.view, Flush(UrlKind), c);
    hide Dispatch, PerformAll, Emit;
  }

  lemma UrlEndsAt(s: Sim, c: Byte, run: Bytes)
    requires !Halted(s) && MayEndUrl(s.parser.state) && s.view.mark == Open(UrlKind, run) && s.parser.nread < 81920
    requires c == ' ' || c == '\r' || c == '\n'
    ensures var p := s.parser.(nread := s.parser.nread + 1);
            var q := if c == ' ' then p.(state := HttpStart)
                     else p.(httpMajor := 0, httpMinor := 9,
                             state := if c == '\r' then LineAlmostDone else HeaderFieldStart);
            StepByte(s, c) == Sim(q, View(Emit(s.view.log, UrlKind, run), NoMark), s.consumed + 1, false)
  {
    hide ParseUrlChar, PerformAll, Emit, StepByte;
    UrlEndDispatch(s.parser.(nread := s.parser.nread + 1), c);
    PerformOne(s.view, Flush(UrlKind), c);
    FlushStep(s, c, Dispatch(Count(s.parser), c).parser, run);
  }

  // ---------- the version ----------

  lemma Moves(s: Sim, c: Byte, state: State)
    requires !Halted(s) && s.view.mark.NoMark? && s.parser.nread < 81920 && ParsingHeader(s.parser.state)
    requires var p := s.parser.(nread := s.parser.nread + 1); Dispatch(p, c) == Goto(p, state)
    ensures StepByte(s, c) == Moved(s, state, 1)
  {
    hide Dispatch;
  }

  /** Where the letters of the protocol lead. */
  function ProtocolState(ice: bool, n: nat): State {
    if n == 0 then HttpStart
    else if ice then if n == 1 then HttpI else if n == 2 then HttpIC else if n == 3 then HttpHTTP else HttpMajor
    else
      if n == 1 then HttpH else if n == 2 then HttpHT else if n == 3 then HttpHTT else if n == 4 then HttpHTTP
      else HttpMajor
  }

  lemma ProtocolStep(s: Sim, ice: bool, n: nat)
    requires !Halted(s) && s.view.mark.NoMark? && s.parser.nread < 81920 && n < |Protocol(ice)|
    requires s.parser.state == ProtocolState(ice, n) && (ice ==> s.parser.verb.SOURCE?)
    ensures StepByte(s, Protocol(ice)[n]) == Moved(s, ProtocolState(ice, n + 1), 1)
  {
    var p := s.parser.(nread := s.parser.nread + 1);
    assert Dispatch(p, Protocol(ice)[n]) == Goto(p, ProtocolState(ice, n + 1));
    hide Dispatch;
    Moves(s, Protocol(ice)[n], ProtocolState(ice, n + 1));
  }

  lemma {:induction false} ProtocolRun(s: Sim, ice: bool, n: nat)
    requires !Halted(s) && s.view.mark.NoMark? && s.parser.state.HttpStart? && (ice ==> s.parser.verb.SOURCE?)
    requires n <= |Protocol(ice)| && s.parser.nread + n <= 81920
    ensures Run(s, Protocol(ice)[..n]) == Moved(s, ProtocolState(ice, n), n)
  {
    hide StepByte, Protocol, Run;
    var w := Protocol(ice);
    if n == 0 {
      assert w[..0] == [];
      RunNothing(s);
    } else {
      ProtocolRun(s, ice, n - 1);
      assert w[..n] == w[..n - 1] + [w[n - 1]];
      RunMore(s, w[..n - 1], w[n - 1]);
      ProtocolStep(Run(s, w[..n - 1]), ice, n - 1);
    }
  }

  lemma DigitIs(d: nat)
    requires d < 10
    ensures IsNum(DigitByte(d)) && Digit(DigitByte(d)) == d
  {
  }

  /** A digit of the version. */
  lemma VersionDigit(s: Sim, d: nat)
    requires !Halted(s) && s.view.mark.NoMark? && s.parser.nread < 81920 && d < 10
    requires s.parser.state.HttpMajor? || s.parser.state.HttpMinor?
    ensures var r := Moved(s, if s.parser.state.HttpMajor? then HttpDot else HttpEnd, 1);
            StepByte(s, DigitByte(d)) ==
            if s.parser.state.HttpMajor? then r.(parser := r.parser.(httpMajor := d))
            else r.(parser := r.parser.(httpMinor := d))
  {
    DigitIs(d);
    hide DigitByte, Digit;
  }

  lemma DotStep(s: Sim)
    requires !Halted(s) && s.view.mark.NoMark? && s.parser.nread < 81920 && s.parser.state.HttpDot?
    ensures StepByte(s, '.') == Moved(s, HttpMinor, 1)
  {
  }

  /** The protocol and the digits of the version. */
  lemma NumbersRead(s: Sim, ice: bool, major: nat, minor: nat)
    requires !Halted(s) && s.view.mark.NoMark? && s.parser.state.HttpStart? && (ice ==> s.parser.verb.SOURCE?)
    requires major < 10 && minor < 10 && s.parser.nread + |Protocol(ice)| + 3 <= 81920
    ensures var text := Protocol(ice) + [DigitByte(major)] + ['.'] + [DigitByte(minor)];
            var r := Moved(s, HttpEnd, |Protocol(ice)| + 3);
            Run(s, text) == r.(parser := r.parser.(httpMajor := major, httpMinor := minor))
  {
    hide StepByte, Run, Protocol, DigitByte;
    var w := Protocol(ice);
    ProtocolRun(s, ice, |w|);
    assert w[..|w|] == w;
    assert ProtocolState(ice, |w|) == HttpMajor by {
      ProtocolEnds(ice);
    }
    RunMore(s, w, DigitByte(major));
    VersionDigit(Run(s, w), major);
    RunMore(s, w + [DigitByte(major)], '.');
    DotStep(Run(s, w + [DigitByte(major)]));
    RunMore(s, w + [DigitByte(major)] + ['.'], DigitByte(minor));
    VersionDigit(Run(s, w + [DigitByte(major)] + ['.']), minor);
  }

  lemma ProtocolEnds(ice: bool)
    ensures ProtocolState(ice, |Protocol(ice)|) == HttpMajor
  {
  }

  lemma LineEndStep(s: Sim, bare: bool)
    requires !Halted(s) && s.view.mark.NoMark? && s.parser.nread < 81920 && s.parser.state.HttpEnd?
    ensures StepByte(s, if bare then LF else CR) == Moved(s, if bare then HeaderFieldStart else LineAlmostDone, 1)
  {
  }

  lemma LineFeedStep(s: Sim)
    requires !Halted(s) && s.view.mark.NoMark? && s.parser.nread < 81920 && s.parser.state.LineAlmostDone?
    ensures StepByte(s, LF) == Moved(s, HeaderFieldStart, 1)
  {
  }

  /** The end of the line behind a version. */
  lemma VersionEnds(s: Sim, bare: bool)
    requires !Halted(s) && s.view.mark.NoMark? && s.parser.state.HttpEnd?
    requires s.parser.nread + |EndOfLine(bare)| <= 81920
    ensures Run(s, EndOfLine(bare)) == Moved(s, HeaderFieldStart, |EndOfLine(bare)|)
  {
    hide StepByte, Run;
    LineEndStep(s, bare);
    RunOne(s, if bare then LF else CR);
    if !bare {
      assert [CR, LF] == [CR] + [LF];
      RunMore(s, [CR], LF);
      LineFeedStep(StepByte(s, CR));
    }
  }

  /** The end of a line without a version. */
  lemma UrlLineEnds(s: Sim, run: Bytes, bare: bool)
    requires !Halted(s) && MayEndUrl(s.parser.state) && s.view.mark == Open(UrlKind, run)
    requires s.parser.nread + |EndOfLine(bare)| <= 81920
    ensures var r := Moved(s, HeaderFieldStart, |EndOfLine(bare)|);
            Run(s, EndOfLine(bare)) ==
            r.(parser := r.parser.(httpMajor := 0, httpMinor := 9),
               view := View(Emit(s.view.log, UrlKind, run), NoMark))
  {
    hide StepByte, Run, Emit;
    UrlEndsAt(s, if bare then LF else CR, run);
    RunOne(s, if bare then LF else CR);
    if !bare {
      assert [CR, LF] == [CR] + [LF];
      RunMore(s, [CR], LF);
      LineFeedStep(StepByte(s, CR));
    }
  }

  // ---------- the whole line ----------

  function MajorOf(v: Version): nat {
    if v.Version? then v.major else 0
  }

  function MinorOf(v: Version): nat {
    if v.Version? then v.minor else 9
  }

  /** The parser behind a request line. */
  function AfterLine(s: Sim, l: RequestLine): Sim
    requires WellLine(l)
  {
    var n, p := |LineText(l)|, s.parser;
    Sim(p.(state := HeaderFieldStart, verb := MethodNumber(l.verb), index := |WordNumber(l.verb)| + 1,
           flags := NO_FLAGS, transferEncoding := false, contentLength := ULLONG_MAX, nread := p.nread + n,
           httpMajor := MajorOf(l.version), httpMinor := MinorOf(l.version)),
        s.view.(log := s.view.log + [Note(MessageBegin), Data(UrlKind, l.url)]), s.consumed + n, false)
  }

  predicate AwaitsRequest(s: Sim) {
    !Halted(s) && s.parser.state.StartReq? && s.view.mark.NoMark?
  }

  /** The line up to the URL. */
  function BeforeUrl(l: RequestLine): Bytes
    requires l.verb < 34
  {
    l.before + (WordNumber(l.verb) + [' ']) + Spaces(l.more)
  }

  lemma VerbIs(k: nat)
    requires k < 34
    ensures MethodNumber(k).CONNECT? <==> WordNumber(k) == "CONNECT"
    ensures MethodNumber(k).SOURCE? <==> WordNumber(k) == "SOURCE"
  {
  }

  lemma WordRead(s: Sim, l: RequestLine)
    requires AwaitsRequest(s) && WellLine(l) && s.parser.nread + |BeforeUrl(l)| < 81920
    ensures var n := |BeforeUrl(l)|;
            Run(s, BeforeUrl(l)) ==
            Sim(s.parser.(state := SpacesBeforeUrl, verb := MethodNumber(l.verb), index := |WordNumber(l.verb)| + 1,
                          flags := NO_FLAGS, transferEncoding := false, contentLength := ULLONG_MAX,
                          nread := s.parser.nread + n),
                s.view.(log := s.view.log + [Note(MessageBegin)]), s.consumed + n, false)
  {
    hide Run, WordNumber, MethodNumber, RequestUrl;
    BeforeRun(s, l.before);
    var s1 := Run(s, l.before);
    var word := WordNumber(l.verb) + [' '];
    RunConcat(s, l.before, word);
    WordsRecognised(s1, l.verb);
    RunConcat(s, l.before + word, Spaces(l.more));
    SpacesRun(AfterMethod(s1, MethodNumber(l.verb), |word|), l.more);
  }

  /** The rest of the line, from the URL on. */
  function FromUrl(l: RequestLine): Bytes
    requires WellVersion(l.version)
  {
    l.url + VersionText(l.version) + EndOfLine(l.bare)
  }

  /** The parser behind the URL, the version and the end of the line. */
  function AfterTarget(s: Sim, l: RequestLine, n: nat): Sim {
    var p := s.parser;
    Sim(p.(state := HeaderFieldStart, nread := p.nread + n, httpMajor := MajorOf(l.version),
           httpMinor := MinorOf(l.version)),
        View(Emit(s.view.log, UrlKind, l.url), NoMark), s.consumed + n, false)
  }

  predicate AwaitsUrl(s: Sim) {
    !Halted(s) && s.parser.state.SpacesBeforeUrl? && s.view.mark.NoMark?
  }

  lemma UrlRead(s: Sim, url: Bytes)
    requires AwaitsUrl(s) && s.parser.nread + |url| <= 81920 && RequestUrl(s.parser.verb.CONNECT?, url)
    ensures var r := Run(s, url);
            && r == InUrlAt(s, s.parser.verb.CONNECT?, url) && MayEndUrl(r.parser.state)
  {
    hide Run, UrlState, Fits, CutOf;
    UrlRun(s, url, |url|);
    assert url[..|url|] == url;
    RequestUrlEnds(s.parser.verb.CONNECT?, url);
  }

  lemma VersionRead(s: Sim, v: Version, run: Bytes)
    requires !Halted(s) && MayEndUrl(s.parser.state) && s.view.mark == Open(UrlKind, run)
    requires v.Version? && WellVersion(v) && (v.ice ==> s.parser.verb.SOURCE?)
    requires s.parser.nread + |VersionText(v)| <= 81920
    ensures var r := Moved(s, HttpEnd, |VersionText(v)|);
            Run(s, VersionText(v)) ==
            r.(parser := r.parser.(httpMajor := v.major, httpMinor := v.minor),
               view := View(Emit(s.view.log, UrlKind, run), NoMark))
  {
    hide Run, Emit, MayEndUrl, DigitByte, Protocol;
    var numbers := Protocol(v.ice) + [DigitByte(v.major)] + ['.'] + [DigitByte(v.minor)];
    var spaces := Spaces(v.more);
    assert VersionText(v) == [' '] + spaces + numbers;
    UrlEndsAt(s, ' ', run);
    RunOne(s, ' ');
    RunConcat(s, [' '], spaces);
    SpacesRun(Run(s, [' ']), v.more);
    RunConcat(s, [' '] + spaces, numbers);
    NumbersRead(Run(s, [' '] + spaces), v.ice, v.major, v.minor);
  }

  lemma TargetRead(s: Sim, l: RequestLine)
    requires AwaitsUrl(s) && RequestUrl(s.parser.verb.CONNECT?, l.url) && WellVersion(l.version)
    requires l.version.Version? && l.version.ice ==> s.parser.verb.SOURCE?
    requires s.parser.nread + |FromUrl(l)| <= 81920
    ensures Run(s, FromUrl(l)) == AfterTarget(s, l, |FromUrl(l)|)
  {
    hide Run, Emit, MayEndUrl, UrlState, RequestUrl, EndOfLine, VersionText;
    var s1, text, eol := Run(s, l.url), VersionText(l.version), EndOfLine(l.bare);
    UrlRead(s, l.url);
    RunConcat(s, l.url, text);
    RunConcat(s, l.url + text, eol);
    if l.version.Version? {
      VersionRead(s1, l.version, l.url);
      VersionEnds(Run(s1, text), l.bare);
    } else {
      NoVersionText();
      RunNothing(s1);
      UrlLineEnds(s1, l.url, l.bare);
    }
  }

  lemma NoVersionText()
    ensures VersionText(NoVersion) == []
  {
  }

  /**
   * A request line, its URL being well-formed byte by byte: the message begins, the URL callbacks receive exactly the
   * URL, and method and version are those of the line.
   */
  lemma LineRead(s: Sim, l: RequestLine)
    requires AwaitsRequest(s) && WellLine(l) && s.parser.nread + |LineText(l)| <= 81920
    ensures Run(s, LineText(l)) == AfterLine(s, l)
  {
    hide Run, BeforeUrl, FromUrl, RequestUrl, WordNumber, MethodNumber;
    VerbIs(l.verb);
    LineParts(l);
    RunConcat(s, BeforeUrl(l), FromUrl(l));
    WordRead(s, l);
    TargetRead(Run(s, BeforeUrl(l)), l);
    var log := s.view.log;
    assert log + [Note(MessageBegin)] + [Data(UrlKind, l.url)] == log + [Note(MessageBegin), Data(UrlKind, l.url)];
  }

  lemma LineParts(l: RequestLine)
    requires WellLine(l)
    ensures LineText(l) == BeforeUrl(l) + FromUrl(l) && FromUrl(l) != []
  {
  }
}
