/** The request parser as it runs: marks into the buffer, scanning loops, and bulk copies of bodies. */
module HttpExecute {
  import opened HttpTypes
  import opened HttpStep
  import opened HttpRun
  import opened HttpAsserts
  import opened HttpFragment
  import opened HttpBulk

  // ---------- marks into the buffer ----------

  /** For each kind of data, where in the buffer a run began that is not handed over yet. */
  type Marks = map<Kind, nat>

  predicate Placed(marks: Marks, p: nat) {
    forall k :: k in marks ==> marks[k] <= p
  }

  /** There is at most one such run. */
  predicate AtMostOne(marks: Marks) {
    forall j, k :: j in marks && k in marks ==> j == k
  }

  function MarkOf(marks: Marks, data: Bytes, p: nat): Mark
    requires Placed(marks, p) && p <= |data|
  {
    if FieldKind in marks then Open(FieldKind, data[marks[FieldKind]..p])
    else if ValueKind in marks then Open(ValueKind, data[marks[ValueKind]..p])
    else if UrlKind in marks then Open(UrlKind, data[marks[UrlKind]..p])
    else if BodyKind in marks then Open(BodyKind, data[marks[BodyKind]..p])
    else NoMark
  }

  lemma RunGrows(data: Bytes, from: nat, p: nat, n: nat)
    requires from <= p <= n <= |data|
    ensures data[from..n] == data[from..p] + data[p..n]
    ensures n == p + 1 ==> data[p..n] == [data[p]]
  {
  }

  lemma MarkGrows(marks: Marks, data: Bytes, p: nat, n: nat)
    requires Placed(marks, p) && p <= n <= |data|
    ensures Placed(marks, n)
    ensures MarkOf(marks, data, n) == TakeAll(MarkOf(marks, data, p), data[p..n])
    ensures n == p + 1 ==> MarkOf(marks, data, n) == Take(MarkOf(marks, data, p), data[p])
  {
    if FieldKind in marks {
      RunGrows(data, marks[FieldKind], p, n);
    } else if ValueKind in marks {
      RunGrows(data, marks[ValueKind], p, n);
    } else if UrlKind in marks {
      RunGrows(data, marks[UrlKind], p, n);
    } else if BodyKind in marks {
      RunGrows(data, marks[BodyKind], p, n);
    }
  }

  lemma MarkIs(marks: Marks, data: Bytes, p: nat, k: Kind)
    requires Placed(marks, p) && p <= |data| && AtMostOne(marks) && k in marks
    ensures MarkOf(marks, data, p) == Open(k, data[marks[k]..p])
  {
    assert FieldKind in marks ==> k == FieldKind;
    assert ValueKind in marks ==> k == ValueKind;
    assert UrlKind in marks ==> k == UrlKind;
  }

  lemma NoMarks(marks: Marks, data: Bytes, p: nat)
    requires Placed(marks, p) && p <= |data|
    ensures MarkOf(marks, data, p).NoMark? <==> marks == map[]
  {
    if MarkOf(marks, data, p).NoMark? {
      assert forall k: Kind :: k !in marks by {
        forall k: Kind ensures k !in marks {
          match k
          case FieldKind =>
          case ValueKind =>
          case UrlKind =>
          case BodyKind =>
        }
      }
    }
  }

  // ---------- scanning loops ----------

  function Min(a: nat, b: nat): nat {
    if a < b then a else b
  }

  function Max(a: nat, b: nat): nat {
    if a < b then b else a
  }

  /** The scan of a field name, with its fast path for names that no longer matter: byte for byte the same. */
  method ScanField(q: Parser, data: Bytes, start: nat) returns (r: Parser, p: nat)
    requires start < |data|
    ensures start <= p <= |data| && AllTokens(data[start..p]) && (p < |data| ==> Token(data[p]) == NUL)
    ensures r == FieldChars(q, data[start..p])
  {
    hide FieldChar, FieldChars, Token;
    r, p := q, start;
    FieldNone(q, data, start);
    while p < |data|
      invariant start <= p <= |data| && AllTokens(data[start..p])
      invariant r == FieldChars(q, data[start..p])
    {
      if Token(data[p]) == NUL {
        break;
      }
      if r.headerState.HGeneral? {
        var pe := p + Min(|data| - p, MAX_HEADER_SIZE);
        while p + 1 < pe && Token(data[p + 1]) != NUL
          invariant start <= p < |data| && AllTokens(data[start..p]) && Token(data[p]) != NUL
          invariant r == FieldChars(q, data[start..p]) && r.headerState.HGeneral?
        {
          FieldNext(q, data, start, p);
          p := p + 1;
        }
      } else {
        r := FieldChar(r, data[p]);
      }
      FieldNext(q, data, start, p);
      p := p + 1;
    }
  }

  lemma SliceNext(data: Bytes, start: nat, p: nat)
    requires start <= p < |data|
    ensures data[start..p + 1][..p - start] == data[start..p] && data[start..p + 1][p - start] == data[p]
  {
  }

  lemma FieldNone(q: Parser, data: Bytes, start: nat)
    requires start <= |data|
    ensures FieldChars(q, data[start..start]) == q && AllTokens(data[start..start])
  {
  }

  /** A name that no longer matters stays so. */
  lemma GeneralStays(p: Parser, ch: Byte)
    ensures p.headerState.HGeneral? ==> FieldChar(p, ch) == p
  {
  }

  lemma FieldNext(q: Parser, data: Bytes, start: nat, p: nat)
    requires start <= p < |data|
    ensures FieldChars(q, data[start..p + 1]) == FieldChar(FieldChars(q, data[start..p]), data[p])
    ensures AllTokens(data[start..p]) && Token(data[p]) != NUL ==> AllTokens(data[start..p + 1])
    ensures FieldChars(q, data[start..p]).headerState.HGeneral? ==>
              FieldChar(FieldChars(q, data[start..p]), data[p]) == FieldChars(q, data[start..p])
  {
    hide FieldChar, Token;
    GeneralStays(FieldChars(q, data[start..p]), data[p]);
    SliceNext(data, start, p);
  }

  /** The part of a value that has been scanned without an error. */
  predicate Clean(q: Parser, bytes: Bytes) {
    NoLineEnd(bytes) && ValueChars(q, bytes).errno == OK
  }

  lemma GeneralValueStays(p: Parser, ch: Byte)
    ensures p.headerState.HGeneral? && IsHeaderChar(ch) ==> ValueChar(p, ch) == p
  {
  }

  lemma ValueNext(q: Parser, data: Bytes, start: nat, p: nat)
    requires start <= p < |data| && Clean(q, data[start..p])
    ensures ValueChars(q, data[start..p + 1]) == ValueChar(ValueChars(q, data[start..p]), data[p])
    ensures data[p] != CR && data[p] != LF ==> NoLineEnd(data[start..p + 1])
    ensures ValueChars(q, data[start..p]).headerState.HGeneral? && IsHeaderChar(data[p]) ==>
              ValueChars(q, data[start..p + 1]) == ValueChars(q, data[start..p])
  {
    hide ValueChar, IsHeaderChar;
    GeneralValueStays(ValueChars(q, data[start..p]), data[p]);
    SliceNext(data, start, p);
  }

  lemma {:induction false} CleanPrefix(q: Parser, bytes: Bytes, n: nat)
    requires Clean(q, bytes) && n <= |bytes|
    ensures Clean(q, bytes[..n])
    decreases |bytes| - n
  {
    if n < |bytes| {
      CleanPrefix(q, bytes, n + 1);
      assert bytes[..n + 1][..n] == bytes[..n];
    } else {
      assert bytes[..n] == bytes;
    }
  }

  /** More than a whole limit's worth of the value is clean: the count overflows within it, whatever follows. */
  predicate TooLong(q: Parser, data: Bytes, start: nat, p: nat) {
    start + MAX_HEADER_SIZE < p <= |data| && Clean(q, data[start..start + MAX_HEADER_SIZE])
  }

  /** The scan stands where the byte-by-byte scan stands. */
  predicate Exact(q: Parser, data: Bytes, start: nat, p: nat, r: Parser) {
    start <= p <= |data| && Clean(q, data[start..p]) && ValueChars(q, data[start..p]) == r
  }

  /** A scan stands at `p`: where the byte-by-byte scan stands, or beyond what can be accepted. */
  predicate Scanned(q: Parser, data: Bytes, start: nat, p: nat, r: Parser) {
    TooLong(q, data, start, p) || Exact(q, data, start, p, r)
  }

  lemma ScanNext(q: Parser, data: Bytes, start: nat, p: nat, r: Parser)
    requires Scanned(q, data, start, p, r) && p < |data| && data[p] != CR && data[p] != LF
    requires r.headerState.HGeneral? && IsHeaderChar(data[p])
    ensures Scanned(q, data, start, p + 1, r)
  {
    if Exact(q, data, start, p, r) {
      ValueNext(q, data, start, p);
    }
  }

  /** A run that reaches the limit and skips the byte after it. */
  lemma SkipTooLong(q: Parser, data: Bytes, start: nat, p: nat, r: Parser)
    requires Scanned(q, data, start, p, r) && start + MAX_HEADER_SIZE <= p < |data|
    ensures TooLong(q, data, start, p + 1)
  {
    if Exact(q, data, start, p, r) {
      CleanPrefix(q, data[start..p], MAX_HEADER_SIZE);
      assert data[start..p][..MAX_HEADER_SIZE] == data[start..start + MAX_HEADER_SIZE];
    }
  }

  /** The fast path of the value scan.  A run cut at the header limit skips one byte without looking at it. */
  method FastValue(q: Parser, data: Bytes, start: nat, from: nat, r: Parser) returns (p: nat, bad: bool)
    requires start <= from < |data| && data[from] != CR && data[from] != LF
    requires r.headerState.HGeneral? && Scanned(q, data, start, from, r)
    ensures bad ==> from <= p < |data| && data[p] != CR && data[p] != LF && !IsHeaderChar(data[p])
    ensures !bad ==> from < p <= |data|
    ensures Scanned(q, data, start, p, r)
  {
    hide TooLong, Exact, Scanned, IsHeaderChar;
    p, bad := from, false;
    var pe := p + Min(|data| - p, MAX_HEADER_SIZE);
    while p != pe
      invariant from <= p <= pe && Scanned(q, data, start, p, r)
      decreases pe - p
    {
      var ch := data[p];
      if ch == CR || ch == LF {
        p := p - 1;
        break;
      }
      if !IsHeaderChar(ch) {
        bad := true;
        return;
      }
      ScanNext(q, data, start, p, r);
      p := p + 1;
    }
    if p == |data| {
      p := p - 1;
    } else if p == pe {
      SkipTooLong(q, data, start, p, r);
      assert Scanned(q, data, start, p + 1, r) by { TooLongScanned(q, data, start, p + 1, r); }
    }
    p := p + 1;
  }

  lemma TooLongScanned(q: Parser, data: Bytes, start: nat, p: nat, r: Parser)
    requires TooLong(q, data, start, p)
    ensures Scanned(q, data, start, p, r)
  {
  }

  /** What the scan of a value has stored when a byte fails: at a bad byte, the header state from which it scanned. */
  function Unstored(q: Parser, v: Parser): Parser {
    if v.errno.InvalidHeaderToken? then v.(headerState := q.headerState) else v
  }

  /** How a scan that meets an error ends: with the error of the byte-by-byte scan, but for the header state. */
  predicate Refused(q: Parser, data: Bytes, start: nat, p: nat, r: Parser) {
    && start <= p < |data| && Clean(q, data[start..p]) && data[p] != CR && data[p] != LF
    && r.errno != OK && r == Unstored(q, ValueChars(q, data[start..p + 1]))
  }

  lemma BadChar(q: Parser, data: Bytes, start: nat, p: nat, r: Parser)
    requires Scanned(q, data, start, p, r) && p < |data| && data[p] != CR && data[p] != LF && !IsHeaderChar(data[p])
    ensures TooLong(q, data, start, p)
         || Refused(q, data, start, p, r.(errno := InvalidHeaderToken, headerState := q.headerState))
  {
    if Exact(q, data, start, p, r) {
      ValueNext(q, data, start, p);
    }
  }

  lemma OtherErrors(p: Parser, ch: Byte)
    requires p.errno == OK && IsHeaderChar(ch)
    ensures !ValueChar(p, ch).errno.InvalidHeaderToken?
  {
    hide MatchWord, OptionEnd, Token, Lower, IsHeaderChar;
    OnlyMatches(p, CHUNKED, Lower(ch), TEChunked, TEToken);
    OnlyMatches(p, KEEP_ALIVE, Lower(ch), ConnKeepAlive, ConnToken);
    OnlyMatches(p, CLOSE, Lower(ch), ConnClose, ConnToken);
    OnlyMatches(p, UPGRADE, Lower(ch), ConnUpgrade, ConnToken);
    OnlyEnds(p, ch);
  }

  lemma OnlyMatches(p: Parser, word: Bytes, c: Byte, whole: HeaderState, miss: HeaderState)
    ensures MatchWord(p, word, c, whole, miss).errno == p.errno
  {
  }

  lemma OnlyEnds(p: Parser, ch: Byte)
    ensures forall f :: OptionEnd(p, ch, f).errno == p.errno
  {
  }

  lemma OneChar(q: Parser, data: Bytes, start: nat, p: nat, r: Parser)
    requires Scanned(q, data, start, p, r) && p < |data| && data[p] != CR && data[p] != LF
    requires r.errno == OK && IsHeaderChar(data[p])
    ensures ValueChar(r, data[p]).errno == OK ==> Scanned(q, data, start, p + 1, ValueChar(r, data[p]))
    ensures ValueChar(r, data[p]).errno != OK ==>
              TooLong(q, data, start, p) || Refused(q, data, start, p, ValueChar(r, data[p]))
  {
    hide ValueChar, IsHeaderChar;
    OtherErrors(r, data[p]);
    if Exact(q, data, start, p, r) {
      ValueNext(q, data, start, p);
    }
  }

  /** The scan of a value: byte for byte the same, unless the value is too long to be accepted. */
  method ScanValue(q: Parser, data: Bytes, start: nat) returns (r: Parser, p: nat)
    requires start < |data| && q.errno == OK
    ensures start <= p <= |data|
    ensures r.errno == OK ==> Scanned(q, data, start, p, r) && (p < |data| ==> data[p] == CR || data[p] == LF)
    ensures r.errno != OK ==> p < |data| && (TooLong(q, data, start, p) || Refused(q, data, start, p, r))
  {
    r, p := q, start;
    assert data[start..start] == [];
    assert Scanned(q, data, start, p, r);
    hide TooLong, Exact, Scanned, Refused, IsHeaderChar, ValueChar;
    while p < |data|
      invariant start <= p <= |data| && r.errno == OK
      invariant Scanned(q, data, start, p, r)
    {
      var ch := data[p];
      if ch == CR || ch == LF {
        break;
      }
      if !IsHeaderChar(ch) {
        BadChar(q, data, start, p, r);
        r := r.(errno := InvalidHeaderToken, headerState := q.headerState);
        return;
      }
      if r.headerState.HGeneral? {
        var bad;
        p, bad := FastValue(q, data, start, p, r);
        if bad {
          BadChar(q, data, start, p, r);
          r := r.(errno := InvalidHeaderToken, headerState := q.headerState);
          return;
        }
      } else {
        OneChar(q, data, start, p, r);
        r := ValueChar(r, ch);
        if r.errno != OK {
          return;
        }
        p := p + 1;
      }
    }
  }

  // ---------- where a call stands ----------

  /** Up to byte `p` the call has done what the byte-by-byte run does. */
  ghost predicate At(s0: Sim, data: Bytes, q: Parser, marks: Marks, p: nat, stop: bool, log: Log) {
    && p <= |data| && Placed(marks, p) && AtMostOne(marks)
    && s0.consumed == 0 && Sane(q)
    && Run(s0, data[..p]) == Sim(q, View(log, MarkOf(marks, data, p)), p, stop)
    && Fits(StatusOf(q.state), MarkOf(marks, data, p))
    && (stop ==> MarkOf(marks, data, p).NoMark?)
  }

  /** The byte from which the run reads on in a value up to byte `e`: where the scan that reaches `e` began. */
  function ScanStart(s0: Sim, data: Bytes, e: nat): (p: nat)
    requires e <= |data|
    ensures p <= e
  {
    if e == 0 || !Run(s0, data[..e - 1]).parser.state.HeaderValue? then e else ScanStart(s0, data, e - 1)
  }

  /**
   * The parser that a failing call leaves.  A scan of a value that meets an error has stored neither its count nor, at
   * a bad byte, its header state: they are those of the byte from which it scanned, which is not before byte `cut`.
   */
  function Kept(s0: Sim, data: Bytes, cut: nat): Parser
    requires s0.consumed == 0
  {
    RunConsumes(s0, data);
    var r := Run(s0, data);
    var e := r.consumed;
    var p := Max(ScanStart(s0, data, e), Min(cut, e));
    var q := Run(s0, data[..p]).parser;
    if !Run(s0, data[..e]).parser.state.HeaderValue? then r.parser
    else
      r.parser.(nread := q.nread + 1,
                headerState := if r.parser.errno.InvalidHeaderToken? then q.headerState else r.parser.headerState)
  }

  /** The call has failed as the byte-by-byte run fails; if that run exceeds the header limit, it has failed somehow. */
  ghost predicate Broke(s0: Sim, data: Bytes, q: Parser, p: nat, log: Log) {
    var r := Run(s0, data);
    && s0.consumed == 0 && q.errno != OK
    && (r.parser.errno == HeaderOverflow
        || (q == Kept(s0, data, 0) && q.errno == r.parser.errno && r.consumed == p && r.view.log == log && !r.stop))
  }

  lemma AtNext(s0: Sim, data: Bytes, p: nat, e: nat)
    requires p <= e <= |data|
    ensures Run(s0, data[..e]) == Run(Run(s0, data[..p]), data[p..e])
  {
    assert data[..e] == data[..p] + data[p..e];
    RunConcat(s0, data[..p], data[p..e]);
  }

  /** An error of the byte-by-byte run is its last word. */
  lemma BrokeFor(s0: Sim, data: Bytes, e: nat)
    requires e <= |data| && Halted(Run(s0, data[..e]))
    ensures Run(s0, data) == Run(s0, data[..e])
  {
    AtNext(s0, data, e, |data|);
    assert data[..|data|] == data;
    HaltedStays(Run(s0, data[..e]), data[e..]);
  }

  lemma CountBreaks(s0: Sim, data: Bytes, q: Parser, marks: Marks, p: nat, log: Log)
    requires At(s0, data, q, marks, p, false, log) && p < |data| && Count(q).errno != OK
    ensures Broke(s0, data, Count(q), p, log)
  {
    AtNext(s0, data, p, p + 1);
    assert data[p..p + 1] == [data[p]];
    RunOne(Run(s0, data[..p]), data[p]);
    BrokeFor(s0, data, p + 1);
  }

  /** A byte dispatched on its own: what the run makes of it. */
  lemma ByteFollows(s0: Sim, data: Bytes, q: Parser, marks: Marks, p: nat, log: Log)
    requires At(s0, data, q, marks, p, false, log) && p < |data| && Count(q).errno == OK
    ensures var o := Dispatch(Count(q), data[p]);
            var v := PerformAll(View(log, MarkOf(marks, data, p)), o.acts, data[p]);
            && Tidy(o, StatusOf(q.state))
            && (o.parser.errno == OK ==>
                  Sane(o.parser)
                  && Run(s0, data[..p + 1]) == Sim(o.parser, v.(mark := Take(v.mark, data[p])), p + 1, o.stop))
            && (o.parser.errno != OK ==> Run(s0, data) == Sim(o.parser, v, p, false))
  {
    AtNext(s0, data, p, p + 1);
    assert data[p..p + 1] == [data[p]];
    RunOne(Run(s0, data[..p]), data[p]);
    StepKeeps(q, data[p]);
    hide Sane, Dispatch, Tidy, AssertionsHold, AfterAll, PerformAll;
    CountState(q);
    DispatchTidy(Count(q), data[p]);
    if Dispatch(Count(q), data[p]).parser.errno != OK {
      BrokeFor(s0, data, p + 1);
    }
  }

  /** Right after this byte the run reads on in a value only if it did not before. */
  ghost predicate AtScan(s0: Sim, data: Bytes, q: Parser, p: nat) {
    p < |data| && q.state.HeaderValue? ==> ScanStart(s0, data, p) == p
  }

  /** At the end of the buffer there is nothing to scan. */
  lemma ScanOver(s0: Sim, data: Bytes)
    ensures forall q :: AtScan(s0, data, q, |data|)
  {
  }

  /** A byte dispatched on its own is not within a value. */
  predicate Outside(s: State, ch: Byte) {
    s.HeaderValue? ==> ch == CR || ch == LF
  }

  lemma LineEndLeaves(q: Parser, ch: Byte)
    requires q.state.HeaderValue? && q.errno == OK && (ch == CR || ch == LF)
    ensures var o := Dispatch(q, ch).parser; o.errno == OK && !o.state.HeaderValue?
  {
  }

  /** Where a byte dispatched on its own leaves the call. */
  lemma ByteLeaves(s0: Sim, data: Bytes, q: Parser, marks: Marks, p: nat, log: Log)
    requires At(s0, data, q, marks, p, false, log) && p < |data| && Count(q).errno == OK && Outside(q.state, data[p])
    ensures var o := Dispatch(Count(q), data[p]);
            var v := PerformAll(View(log, MarkOf(marks, data, p)), o.acts, data[p]);
            && (o.parser.errno == OK ==> AtScan(s0, data, o.parser, p + 1))
            && (o.parser.errno != OK ==> Broke(s0, data, o.parser, p, v.log))
  {
    ByteFollows(s0, data, q, marks, p, log);
    CountState(q);
    if q.state.HeaderValue? {
      LineEndLeaves(Count(q), data[p]);
    }
    hide Sane, Dispatch, Tidy, PerformAll, StepByte, Count;
  }

  lemma CountState(q: Parser)
    ensures Count(q).state == q.state
  {
  }

  /** The parser that one call leaves when it fails, the bytes before `cut` having been read by earlier calls. */
  function KeptBy(p: Parser, log: Log, data: Bytes, cut: nat): Parser {
    if p.errno != OK || data == [] then Call(p, log, data).parser else Kept(Enter(p, log), data, cut)
  }

  /**
   * One call of the parser does what the byte-by-byte run does: the fields, what the client has received and the number
   * of bytes.  On an error in a value the fields are those that the scan has stored.  When the byte-by-byte run exceeds
   * the header limit the call fails too.
   */
  ghost predicate Does(p: Parser, log: Log, data: Bytes, q: Parser, log': Log, n: nat) {
    var r := Call(p, log, data);
    && (r.parser.errno == OK ==> q == r.parser && log' == r.log && n == r.consumed)
    && (r.parser.errno != OK && r.parser.errno != HeaderOverflow ==>
          q == KeptBy(p, log, data, 0) && q.errno == r.parser.errno && log' == r.log && n == r.consumed)
    && (r.parser.errno == HeaderOverflow ==> q.errno != OK)
  }

  lemma MarksPlaced(s0: Sim, data: Bytes, q: Parser, marks: Marks, p: nat, log: Log)
    requires At(s0, data, q, marks, p, false, log)
    ensures Placed(marks, p) && s0.consumed == 0
  {
  }

  class HttpParser {
    var state: State
    var headerState: HeaderState
    var index: nat
    var flags: Flags
    var transferEncoding: bool
    var nread: nat
    var contentLength: u64
    var httpMajor: nat
    var httpMinor: nat
    var verb: Method
    var errno: Errno
    var upgrade: bool

    /** What the callbacks have received, as a client joins it. */
    var log: Log

    /** The fields as one value. */
    function Value(): Parser
      reads this
    {
      Parser(state, headerState, index, flags, transferEncoding, nread, contentLength, httpMajor, httpMinor, verb,
            errno, upgrade)
    }

    ghost predicate Valid()
      reads this
    {
      errno == OK ==> Sane(Value())
    }

    method Store(q: Parser)
      modifies this
      ensures Value() == q && log == old(log)
    {
      state, headerState, index, flags, transferEncoding := q.state, q.headerState, q.index, q.flags,
          q.transferEncoding;
      nread, contentLength, httpMajor, httpMinor := q.nread, q.contentLength, q.httpMajor, q.httpMinor;
      verb, errno, upgrade := q.verb, q.errno, q.upgrade;
    }

    constructor ()
      ensures Value() == INITIAL && log == [] && Valid()
    {
      state, headerState, index, flags, transferEncoding := StartReq, HGeneral, 0, NO_FLAGS, false;
      nread, contentLength, httpMajor, httpMinor := 0, 0, 0, 0;
      verb, errno, upgrade := DELETE, OK, false;
      log := [];
      new;
      InitialSane();
    }

    /** A parser as it lies in the memory of a connection. */
    constructor Of(p: Parser)
      requires p.errno == OK ==> Sane(p)
      ensures Value() == p && log == [] && Valid()
    {
      state, headerState, index, flags, transferEncoding := p.state, p.headerState, p.index, p.flags,
          p.transferEncoding;
      nread, contentLength, httpMajor, httpMinor := p.nread, p.contentLength, p.httpMajor, p.httpMinor;
      verb, errno, upgrade := p.verb, p.errno, p.upgrade;
      log := [];
    }

    method PerformAct(a: Act, data: Bytes, p: nat, marks: Marks, ghost st: Status) returns (left: Marks)
      requires p < |data| && Placed(marks, p) && AtMostOne(marks)
      requires Fits(st, MarkOf(marks, data, p)) && After(st, a).Some?
      modifies this`log
      ensures Placed(left, p) && AtMostOne(left)
      ensures View(log, MarkOf(left, data, p)) == Perform(View(old(log), MarkOf(marks, data, p)), a, data[p])
      ensures Fits(After(st, a).value, MarkOf(left, data, p))
    {
      left := marks;
      hide Emit;
      NoMarks(marks, data, p);
      match a
      case Mark(k) =>
        if k !in marks {
          left := marks[k := p];
          assert marks == map[];
          MarkIs(left, data, p, k);
          assert data[p..p] == [];
        } else {
          MarkIs(marks, data, p, k);
        }
      case Flush(k) =>
        if k in marks {
          MarkIs(marks, data, p, k);
          log := Emit(log, k, data[marks[k]..p]);
          left := marks - {k};
          NoMarks(left, data, p);
        }
      case FlushThrough(k) =>
        if k in marks {
          MarkIs(marks, data, p, k);
          assert data[marks[k]..p + 1] == data[marks[k]..p] + [data[p]];
          log := Emit(log, k, data[marks[k]..p + 1]);
          left := marks - {k};
          NoMarks(left, data, p);
        }
      case Tell(n) => log := log + [Note(n)];
    }

    method PerformActs(acts: seq<Act>, data: Bytes, p: nat, marks: Marks, ghost st: Status) returns (left: Marks)
      requires p < |data| && Placed(marks, p) && AtMostOne(marks)
      requires Fits(st, MarkOf(marks, data, p)) && AfterAll(st, acts).Some?
      modifies this`log
      ensures Placed(left, p) && AtMostOne(left)
      ensures View(log, MarkOf(left, data, p)) == PerformAll(View(old(log), MarkOf(marks, data, p)), acts, data[p])
      ensures Fits(AfterAll(st, acts).value, MarkOf(left, data, p))
    {
      left := marks;
      ghost var now := st;
      hide Perform, Fits, After;
      for i := 0 to |acts|
        invariant Placed(left, p) && AtMostOne(left)
        invariant AfterAll(now, acts[i..]).Some? && AfterAll(now, acts[i..]) == AfterAll(st, acts)
        invariant Fits(now, MarkOf(left, data, p))
        invariant PerformAll(View(log, MarkOf(left, data, p)), acts[i..], data[p])
               == PerformAll(View(old(log), MarkOf(marks, data, p)), acts, data[p])
      {
        assert acts[i..][0] == acts[i] && acts[i..][1..] == acts[i + 1..];
        left := PerformAct(acts[i], data, p, left, now);
        now := After(now, acts[i]).value;
      }
    }

    /** One byte through the dispatch, `q` being the parser before the byte is counted. */
    method DispatchByte(ghost s0: Sim, ghost q: Parser, counted: Parser, data: Bytes, marks: Marks, p: nat)
      returns (r: Parser, left: Marks, e: nat, stop: bool)
      requires At(s0, data, q, marks, p, false, log) && p < |data|
      requires counted == Count(q) && counted.errno == OK && Outside(q.state, data[p])
      modifies this`log
      ensures r.errno == OK ==> p < e <= |data| && At(s0, data, r, left, e, stop, log) && AtScan(s0, data, r, e)
      ensures r.errno != OK ==> Broke(s0, data, r, e, log)
    {
      ByteFollows(s0, data, q, marks, p, log);
      ByteLeaves(s0, data, q, marks, p, log);
      hide Sane, Dispatch, Perform, PerformAll, AfterAll, AtScan, Broke;
      var o := Dispatch(counted, data[p]);
      left := PerformActs(o.acts, data, p, marks, StatusOf(q.state));
      r, e, stop := o.parser, p, false;
      if r.errno == OK {
        MarkGrows(left, data, p, p + 1);
        e, stop := p + 1, o.stop;
      }
    }

    /** The scan of a field name from byte `p`, already counted; the rest of the scan is counted at its end. */
    method FieldStep(ghost s0: Sim, ghost q: Parser, counted: Parser, data: Bytes, marks: Marks, p: nat)
      returns (r: Parser, left: Marks, e: nat, stop: bool)
      requires At(s0, data, q, marks, p, false, log) && p < |data| && q.state.HeaderField?
      requires counted == Count(q) && counted.errno == OK
      modifies this`log
      ensures r.errno == OK ==> p < e <= |data| && At(s0, data, r, left, e, stop, log) && AtScan(s0, data, r, e)
      ensures r.errno != OK ==> Broke(s0, data, r, e, log)
    {
      hide At, AtScan, Broke, Sane, FieldChars, Run, StepByte, MarkOf;
      MarksPlaced(s0, data, q, marks, p, log);
      ScanOver(s0, data);
      left, stop := marks, false;
      r, e := ScanField(counted, data, p);
      ghost var b := FieldChars(q, data[p..e]).(nread := q.nread + (e - p));
      FieldCharsNread(q, data[p..e], counted.nread);
      FieldFollows(s0, data, q, marks, p, e, log);
      if e == |data| {
        r := r.(nread := counted.nread + (e - 1 - p));
        if r.nread > MAX_HEADER_SIZE {
          r, e := r.(errno := HeaderOverflow), e - 1;
          BrokeOverflow(s0, data, r, e, log);
        }
      } else {
        r := r.(nread := counted.nread + (e - p));
        if r.nread > MAX_HEADER_SIZE {
          r := r.(errno := HeaderOverflow);
          if b.nread <= MAX_HEADER_SIZE {
            NextOverflows(s0, data, b, left, e, log);
          }
          BrokeOverflow(s0, data, r, e, log);
        } else {
          r, left, e, stop := DispatchByte(s0, b, r, data, left, e);
        }
      }
    }

    /** The scan of a value from byte `p`, already counted; the rest of the scan is counted at its end. */
    method ValueStep(ghost s0: Sim, ghost q: Parser, counted: Parser, data: Bytes, marks: Marks, p: nat)
      returns (r: Parser, left: Marks, e: nat, stop: bool)
      requires At(s0, data, q, marks, p, false, log) && p < |data| && q.state.HeaderValue? && AtScan(s0, data, q, p)
      requires counted == Count(q) && counted.errno == OK
      modifies this`log
      ensures r.errno == OK ==> p < e <= |data| && At(s0, data, r, left, e, stop, log) && AtScan(s0, data, r, e)
      ensures r.errno != OK ==> Broke(s0, data, r, e, log)
    {
      hide At, AtScan, Broke, Sane, ValueChars, TooLong, Exact, Scanned, Refused, Run, StepByte, MarkOf, Emit;
      MarksPlaced(s0, data, q, marks, p, log);
      ScanOver(s0, data);
      left, stop := marks, false;
      r, e := ScanValue(counted, data, p);
      ValueEnds(s0, data, q, marks, p, e, log, r);
      if r.errno != OK {
        return;
      }
      ghost var b := r.(nread := q.nread + (e - p));
      if e == |data| {
        r := r.(nread := counted.nread + (e - 1 - p));
        if r.nread > MAX_HEADER_SIZE {
          r, e := r.(errno := HeaderOverflow), e - 1;
          BrokeOverflow(s0, data, r, e, log);
        }
        return;
      }
      r := r.(nread := counted.nread + (e - p));
      if r.nread <= MAX_HEADER_SIZE {
        r, left, e, stop := DispatchByte(s0, b, r, data, left, e);
      } else {
        // The count is checked before the value is handed over at LF, and after that at CR.
        if data[e] == CR && ValueKind in left {
          log := Emit(log, ValueKind, data[left[ValueKind]..e]);
        }
        r := r.(errno := HeaderOverflow, state := HeaderAlmostDone);
        BrokeOverflow(s0, data, r, e, log);
      }
    }

    /** As much of a body of declared length as the buffer holds, in one go. */
    method BodyStep(ghost s0: Sim, q: Parser, data: Bytes, marks: Marks, p: nat)
      returns (r: Parser, left: Marks, e: nat, stop: bool)
      requires At(s0, data, q, marks, p, false, log) && p < |data| && q.state.BodyIdentity?
      modifies this`log
      ensures r.errno == OK && p < e <= |data| && At(s0, data, r, left, e, stop, log) && !r.state.HeaderValue?
    {
      hide Sane, BodyAfter, StepByte;
      BodyLength(q);
      var toRead := Min(q.contentLength, |data| - p);
      left := if BodyKind in marks then marks else marks[BodyKind := p];
      e, stop := p + toRead, false;
      BodyFollows(s0, data, q, marks, left, p, e, log);
      r := q.(contentLength := q.contentLength - toRead);
      if r.contentLength == 0 {
        log := Emit(log, BodyKind, data[left[BodyKind]..e]);
        left := left - {BodyKind};
        r := r.(state := NewMessage(r));
        log := log + [Note(MessageComplete)];
        stop := r.upgrade;
      }
    }

    /** As much of a chunk as the buffer holds, in one go. */
    method ChunkStep(ghost s0: Sim, q: Parser, data: Bytes, marks: Marks, p: nat)
      returns (r: Parser, left: Marks, e: nat, stop: bool)
      requires At(s0, data, q, marks, p, false, log) && p < |data| && q.state.ChunkData?
      ensures r.errno == OK && p < e <= |data| && At(s0, data, r, left, e, stop, log) && !r.state.HeaderValue?
    {
      hide Sane, ChunkAfter, StepByte;
      BodyLength(q);
      var toRead := Min(q.contentLength, |data| - p);
      left := if BodyKind in marks then marks else marks[BodyKind := p];
      e, stop := p + toRead, false;
      ChunkFollows(s0, data, q, marks, left, p, e, log);
      r := q.(contentLength := q.contentLength - toRead);
      if r.contentLength == 0 {
        r := r.(state := ChunkDataAlmostDone);
      }
    }

    /** One turn of the main loop. */
    method Turn(ghost s0: Sim, q: Parser, data: Bytes, marks: Marks, p: nat)
      returns (r: Parser, left: Marks, e: nat, stop: bool)
      requires At(s0, data, q, marks, p, false, log) && p < |data| && AtScan(s0, data, q, p)
      modifies this`log
      ensures r.errno == OK ==> p < e <= |data| && At(s0, data, r, left, e, stop, log) && AtScan(s0, data, r, e)
      ensures r.errno != OK ==> Broke(s0, data, r, e, log)
    {
      hide At, Broke, Sane, Dispatch;
      var counted := Count(q);
      if counted.errno != OK {
        CountBreaks(s0, data, q, marks, p, log);
        r, left, e, stop := counted, marks, p, false;
      } else if q.state.HeaderField? {
        r, left, e, stop := FieldStep(s0, q, counted, data, marks, p);
      } else if q.state.HeaderValue? {
        r, left, e, stop := ValueStep(s0, q, counted, data, marks, p);
      } else if q.state.BodyIdentity? {
        r, left, e, stop := BodyStep(s0, q, data, marks, p);
      } else if q.state.ChunkData? {
        r, left, e, stop := ChunkStep(s0, q, data, marks, p);
      } else {
        r, left, e, stop := DispatchByte(s0, q, counted, data, marks, p);
      }
    }

    /** The marks that a call begins with. */
    method EntryMarks() returns (marks: Marks)
      ensures Placed(marks, 0) && AtMostOne(marks)
      ensures forall data: Bytes :: MarkOf(marks, data, 0) == EntryMark(state)
    {
      marks := map[];
      if state.HeaderField? {
        marks := map[FieldKind := 0];
      } else if state.HeaderValue? {
        marks := map[ValueKind := 0];
      } else if InUrl(state) {
        marks := map[UrlKind := 0];
      }
      forall data: Bytes ensures MarkOf(marks, data, 0) == EntryMark(state) {
        assert data[0..0] == [];
      }
    }

    /** The runs left open at the end of the buffer, of which there is at most one, are handed over. */
    method Leftovers(data: Bytes, marks: Marks)
      requires Placed(marks, |data|) && AtMostOne(marks)
      modifies this`log
      ensures log == Deliver(old(log), MarkOf(marks, data, |data|))
    {
      hide Emit;
      NoMarks(marks, data, |data|);
      forall k | k in marks
        ensures MarkOf(marks, data, |data|) == Open(k, data[marks[k]..])
      {
        MarkIs(marks, data, |data|, k);
      }
      if FieldKind in marks {
        log := Emit(log, FieldKind, data[marks[FieldKind]..]);
      }
      if ValueKind in marks {
        log := Emit(log, ValueKind, data[marks[ValueKind]..]);
      }
      if UrlKind in marks {
        log := Emit(log, UrlKind, data[marks[UrlKind]..]);
      }
      if BodyKind in marks {
        log := Emit(log, BodyKind, data[marks[BodyKind]..]);
      }
    }

    /** One call of the parser, with marks into the buffer, scanning loops and bulk copies. */
    method Execute(data: Bytes) returns (consumed: nat)
      requires Valid()
      modifies this
      ensures Valid()
      ensures Does(old(Value()), old(log), data, Value(), log, consumed)
    {
      hide Sane, At, Broke, Run;
      if errno != OK {
        return 0;
      }
      if |data| == 0 {
        if state.Dead? || state.StartReq? {
          return 0;
        }
        errno := InvalidEofState;
        return 1;
      }
      var q, stop := Value(), false;
      var p: nat := 0;
      var marks := EntryMarks();
      ghost var s0 := Enter(q, log);
      AtEntry(q, log, data, marks);
      while p < |data| && q.errno == OK && !stop
        invariant q.errno == OK ==> p <= |data| && At(s0, data, q, marks, p, stop, log) && AtScan(s0, data, q, p)
        invariant q.errno != OK ==> Broke(s0, data, q, p, log)
        decreases q.errno == OK, |data| - p
      {
        q, marks, p, stop := Turn(s0, q, data, marks, p);
      }
      Store(q);
      if q.errno == OK {
        AtExit(s0, data, q, marks, p, stop, log);
        if !stop {
          Leftovers(data, marks);
        }
      } else {
        BrokeExit(s0, data, q, p, log);
      }
      return p;
    }
  }

  lemma AtEntry(q: Parser, log: Log, data: Bytes, marks: Marks)
    requires Sane(q) && Placed(marks, 0) && AtMostOne(marks)
    requires MarkOf(marks, data, 0) == EntryMark(q.state)
    ensures At(Enter(q, log), data, q, marks, 0, false, log)
  {
    hide Sane, MarkOf;
    assert data[..0] == [];
  }

  lemma AtExit(s0: Sim, data: Bytes, q: Parser, marks: Marks, p: nat, stop: bool, log: Log)
    requires At(s0, data, q, marks, p, stop, log) && (p == |data| || stop)
    ensures p <= |data| && Placed(marks, p) && AtMostOne(marks) && Sane(q) && q.errno == OK
    ensures Leave(Run(s0, data)) == Result(q, Deliver(log, MarkOf(marks, data, p)), p, stop)
    ensures stop ==> Deliver(log, MarkOf(marks, data, p)) == log
    ensures !stop ==> p == |data|
  {
    hide Sane, MarkOf, Run;
    SaneBasics(q);
    if stop {
      BrokeFor(s0, data, p);
    } else {
      assert data[..p] == data;
    }
  }

  lemma BrokeExit(s0: Sim, data: Bytes, q: Parser, p: nat, log: Log)
    requires Broke(s0, data, q, p, log)
    ensures var r := Leave(Run(s0, data));
            && q.errno != OK
            && (r.parser.errno == HeaderOverflow
                || (q == Kept(s0, data, 0) && r.consumed == p && r.log == log && r.parser.errno == q.errno))
  {
    hide Run, Kept;
  }

  lemma {:induction false} FieldCharsNread(p: Parser, bytes: Bytes, n: nat)
    ensures FieldChars(p.(nread := n), bytes) == FieldChars(p, bytes).(nread := n)
    decreases |bytes|
  {
    hide FieldChar;
    if bytes != [] {
      FieldCharsNread(p, bytes[..|bytes| - 1], n);
      FieldCharOnly(FieldChars(p, bytes[..|bytes| - 1]), bytes[|bytes| - 1], n);
    }
  }

  lemma SaneBasics(q: Parser)
    requires Sane(q)
    ensures q.errno == OK && q.nread <= MAX_HEADER_SIZE
  {
  }

  /** The scanned part of a field name in the byte-by-byte run. */
  lemma FieldFollows(s0: Sim, data: Bytes, q: Parser, marks: Marks, p: nat, e: nat, log: Log)
    requires At(s0, data, q, marks, p, false, log) && p < |data| && q.state.HeaderField?
    requires p <= e <= |data| && AllTokens(data[p..e])
    ensures var n := q.nread + (e - p);
            var r := FieldChars(q, data[p..e]);
            && (n <= MAX_HEADER_SIZE ==> At(s0, data, r.(nread := n), marks, e, false, log))
            && (n > MAX_HEADER_SIZE ==> Run(s0, data).parser.errno == HeaderOverflow)
            && r.errno == OK && r.state.HeaderField?
  {
    hide Sane, FieldChars, StepByte, MarkOf;
    var s := Run(s0, data[..p]);
    var b := data[p..e];
    AtNext(s0, data, p, e);
    MarkGrows(marks, data, p, e);
    SaneAlways(s, b);
    SaneBasics(q);
    FieldRun(s, b);
    if q.nread + |b| > MAX_HEADER_SIZE {
      BrokeFor(s0, data, e);
    }
  }

  /** The byte that would exceed the header limit. */
  lemma NextOverflows(s0: Sim, data: Bytes, q: Parser, marks: Marks, p: nat, log: Log)
    requires At(s0, data, q, marks, p, false, log) && p < |data| && ParsingHeader(q.state) && q.nread >= MAX_HEADER_SIZE
    ensures Run(s0, data).parser.errno == HeaderOverflow
  {
    CountBreaks(s0, data, q, marks, p, log);
  }

  lemma BrokeOverflow(s0: Sim, data: Bytes, q: Parser, p: nat, log: Log)
    requires Run(s0, data).parser.errno == HeaderOverflow && q.errno != OK && s0.consumed == 0
    ensures Broke(s0, data, q, p, log)
  {
  }

  lemma {:induction false} ValueCharsNread(p: Parser, bytes: Bytes, n: nat)
    ensures ValueChars(p.(nread := n), bytes) == ValueChars(p, bytes).(nread := n)
    decreases |bytes|
  {
    hide ValueChar;
    if bytes != [] {
      ValueCharsNread(p, bytes[..|bytes| - 1], n);
      ValueCharOnly(ValueChars(p, bytes[..|bytes| - 1]), bytes[|bytes| - 1], n);
    }
  }

  /** The scanned part of a value in the byte-by-byte run. */
  lemma ValueFollows(s0: Sim, data: Bytes, q: Parser, marks: Marks, p: nat, e: nat, log: Log)
    requires At(s0, data, q, marks, p, false, log) && p < |data| && q.state.HeaderValue?
    requires p <= e <= |data| && Clean(q, data[p..e])
    ensures var n := q.nread + (e - p);
            var r := ValueChars(q, data[p..e]);
            && (n <= MAX_HEADER_SIZE ==> At(s0, data, r.(nread := n), marks, e, false, log))
            && (n > MAX_HEADER_SIZE ==> Run(s0, data).parser.errno == HeaderOverflow)
            && r.errno == OK && r.state.HeaderValue?
  {
    hide Sane, ValueChars, StepByte, MarkOf;
    var s := Run(s0, data[..p]);
    var b := data[p..e];
    AtNext(s0, data, p, e);
    MarkGrows(marks, data, p, e);
    SaneAlways(s, b);
    SaneBasics(q);
    ValueRun(s, b);
    if q.nread + |b| > MAX_HEADER_SIZE {
      BrokeFor(s0, data, e);
    }
  }

  lemma ValueTooLong(s0: Sim, data: Bytes, q: Parser, marks: Marks, p: nat, e: nat, log: Log)
    requires At(s0, data, q, marks, p, false, log) && p < |data| && q.state.HeaderValue?
    requires TooLong(q, data, p, e)
    ensures Run(s0, data).parser.errno == HeaderOverflow
  {
    hide At, Sane, ValueChars, Run;
    var m := p + MAX_HEADER_SIZE;
    ValueFollows(s0, data, q, marks, p, m, log);
    if q.nread + MAX_HEADER_SIZE <= MAX_HEADER_SIZE {
      NextOverflows(s0, data, ValueChars(q, data[p..m]).(nread := q.nread + MAX_HEADER_SIZE), marks, m, log);
    }
  }

  /** All of the scan from `p` lies in one value. */
  lemma {:induction false} ScanReaches(s0: Sim, data: Bytes, q: Parser, marks: Marks, p: nat, e: nat, log: Log)
    requires At(s0, data, q, marks, p, false, log) && p < |data| && q.state.HeaderValue? && ScanStart(s0, data, p) == p
    requires p <= e <= |data| && Clean(q, data[p..e]) && q.nread + (e - p) <= MAX_HEADER_SIZE
    ensures ScanStart(s0, data, e) == p
    decreases e
  {
    hide At, Sane, ValueChars, StepByte, Run;
    if e > p {
      CleanPrefix(q, data[p..e], e - 1 - p);
      assert data[p..e][..e - 1 - p] == data[p..e - 1];
      ScanReaches(s0, data, q, marks, p, e - 1, log);
      ValueFollows(s0, data, q, marks, p, e - 1, log);
      AtGives(s0, data, ValueChars(q, data[p..e - 1]).(nread := q.nread + (e - 1 - p)), marks, e - 1, log);
    }
  }

  lemma AtGives(s0: Sim, data: Bytes, q: Parser, marks: Marks, p: nat, log: Log)
    requires At(s0, data, q, marks, p, false, log)
    ensures p <= |data| && Run(s0, data[..p]) == Sim(q, View(log, MarkOf(marks, data, p)), p, false)
    ensures s0.consumed == 0 && q.errno == OK
  {
    SaneBasics(q);
  }

  /** The byte that fails in a value, in the byte-by-byte run. */
  lemma ValueFails(s0: Sim, data: Bytes, b: Parser, marks: Marks, e: nat, log: Log)
    requires At(s0, data, b, marks, e, false, log) && e < |data| && b.state.HeaderValue? && b.nread < MAX_HEADER_SIZE
    requires data[e] != CR && data[e] != LF && ValueChar(b, data[e]).errno != OK
    ensures Run(s0, data) == Sim(ValueChar(b, data[e]).(nread := b.nread + 1), View(log, MarkOf(marks, data, e)), e,
          false)
  {
    hide At, Sane, StepByte, ValueChar, MarkOf, Run;
    AtGives(s0, data, b, marks, e, log);
    AtNext(s0, data, e, e + 1);
    assert data[e..e + 1] == [data[e]];
    RunOne(Run(s0, data[..e]), data[e]);
    HttpBulk.ValueStep(Run(s0, data[..e]), data[e]);
    ValueCharOnly(b, data[e], b.nread + 1);
    BrokeFor(s0, data, e + 1);
  }

  lemma KeptIs(s0: Sim, data: Bytes, q: Parser, p: nat, b: Parser, e: nat)
    requires p <= e <= |data| && s0.consumed == 0 && Run(s0, data).consumed == e && ScanStart(s0, data, e) == p
    requires Run(s0, data[..p]).parser == q && Run(s0, data[..e]).parser == b && b.state.HeaderValue?
    ensures Kept(s0, data, 0) == Unstored(q, Run(s0, data).parser.(nread := q.nread + 1))
  {
    hide Run, ScanStart;
  }

  lemma ValueRefused(s0: Sim, data: Bytes, q: Parser, marks: Marks, p: nat, e: nat, log: Log, r: Parser, n: nat)
    requires At(s0, data, q, marks, p, false, log) && p < |data| && q.state.HeaderValue? && ScanStart(s0, data, p) == p
    requires n == q.nread + 1 && Refused(q.(nread := n), data, p, e, r)
    ensures Broke(s0, data, r, e, log)
  {
    var c := q.nread + (e - p);
    hide At, Sane, Run, StepByte, ValueChar, MarkOf, ScanStart, Kept;
    AtGives(s0, data, q, marks, p, log);
    ValueCharsNread(q, data[p..e], n);
    ValueFollows(s0, data, q, marks, p, e, log);
    var b := ValueChars(q, data[p..e]).(nread := c);
    if c == MAX_HEADER_SIZE {
      NextOverflows(s0, data, b, marks, e, log);
    } else if c < MAX_HEADER_SIZE {
      AtGives(s0, data, b, marks, e, log);
      ScanReaches(s0, data, q, marks, p, e, log);
      ValueNext(q.(nread := n), data, p, e);
      ValueCharOnly(b, data[e], n);
      ValueCharOnly(b, data[e], c + 1);
      hide ValueChars;
      ValueFails(s0, data, b, marks, e, log);
      KeptIs(s0, data, q, p, b, e);
    }
  }

  /** How the scan of a value and the byte-by-byte run agree. */
  lemma ValueEnds(s0: Sim, data: Bytes, q: Parser, marks: Marks, p: nat, e: nat, log: Log, r: Parser)
    requires At(s0, data, q, marks, p, false, log) && p < |data| && q.state.HeaderValue? && Count(q).errno == OK
    requires p <= e <= |data| && AtScan(s0, data, q, p)
    requires r.errno == OK ==> Scanned(Count(q), data, p, e, r) && (e < |data| ==> data[e] == CR || data[e] == LF)
    requires r.errno != OK ==> e < |data| && (TooLong(Count(q), data, p, e) || Refused(Count(q), data, p, e, r))
    ensures r.errno != OK ==> Broke(s0, data, r, e, log)
    ensures r.errno == OK ==>
              var n := q.nread + (e - p);
              && (n <= MAX_HEADER_SIZE ==> At(s0, data, r.(nread := n), marks, e, false, log) && r.state.HeaderValue?)
              && (n > MAX_HEADER_SIZE || (n == MAX_HEADER_SIZE && e < |data|) ==>
                    Run(s0, data).parser.errno == HeaderOverflow)
  {
    hide At, Broke, Sane, ValueChars, Run, Refused, Exact;
    var c := Count(q).nread;
    var n := q.nread + (e - p);
    MarksPlaced(s0, data, q, marks, p, log);
    if TooLong(Count(q), data, p, e) {
      ValueCharsNread(q, data[p..p + MAX_HEADER_SIZE], c);
      ValueTooLong(s0, data, q, marks, p, e, log);
      if r.errno != OK {
        BrokeOverflow(s0, data, r, e, log);
      }
    } else if r.errno != OK {
      ValueRefused(s0, data, q, marks, p, e, log, r, c);
    } else {
      ExactEnds(s0, data, q, marks, p, e, log, r);
    }
  }

  lemma ExactEnds(s0: Sim, data: Bytes, q: Parser, marks: Marks, p: nat, e: nat, log: Log, r: Parser)
    requires At(s0, data, q, marks, p, false, log) && p < |data| && q.state.HeaderValue?
    requires Count(q).errno == OK && Exact(Count(q), data, p, e, r)
    ensures var n := q.nread + (e - p);
            && (n <= MAX_HEADER_SIZE ==> At(s0, data, r.(nread := n), marks, e, false, log) && r.state.HeaderValue?)
            && (n > MAX_HEADER_SIZE || (n == MAX_HEADER_SIZE && e < |data|) ==>
                  Run(s0, data).parser.errno == HeaderOverflow)
  {
    hide At, Sane, ValueChars, Run;
    var n := q.nread + (e - p);
    ValueCharsNread(q, data[p..e], Count(q).nread);
    SameErrno(q);
    ValueFollows(s0, data, q, marks, p, e, log);
    if n == MAX_HEADER_SIZE && e < |data| {
      NextOverflows(s0, data, r.(nread := n), marks, e, log);
    }
  }

  lemma SameErrno(q: Parser)
    ensures Count(q).errno == OK ==> Count(q) == q.(nread := Count(q).nread)
  {
  }

  lemma BodyLength(q: Parser)
    requires Sane(q)
    ensures q.errno == OK
    ensures q.state.BodyIdentity? || q.state.ChunkData? ==> q.contentLength > 0
  {
  }

  /** The mark of a body, set unless it is set already, and the run from it. */
  lemma BodyMark(marks: Marks, left: Marks, data: Bytes, p: nat, e: nat)
    requires p <= e <= |data| && Placed(marks, p) && AtMostOne(marks)
    requires Fits(PerhapsBody, MarkOf(marks, data, p))
    requires left == if BodyKind in marks then marks else marks[BodyKind := p]
    ensures Placed(left, e) && AtMostOne(left) && BodyKind in left
    ensures MarkOf(left, data, e) == Open(BodyKind, BodySoFar(MarkOf(marks, data, p), data[p..e]))
    ensures MarkOf(left, data, e) == Open(BodyKind, data[left[BodyKind]..e])
    ensures left - {BodyKind} == map[]
  {
    NoMarks(marks, data, p);
    if BodyKind in marks {
      MarkIs(marks, data, p, BodyKind);
      assert data[marks[BodyKind]..e] == data[marks[BodyKind]..p] + data[p..e];
    } else {
      assert marks == map[];
    }
    MarkIs(left, data, e, BodyKind);
  }

  lemma BodyFollows(s0: Sim, data: Bytes, q: Parser, marks: Marks, left: Marks, p: nat, e: nat, log: Log)
    requires At(s0, data, q, marks, p, false, log) && q.state.BodyIdentity?
    requires p < e <= |data| && e - p <= q.contentLength
    requires left == if BodyKind in marks then marks else marks[BodyKind := p]
    ensures Placed(left, e) && BodyKind in left
    ensures e - p < q.contentLength ==>
        At(s0, data, q.(contentLength := q.contentLength - (e - p)), left, e, false, log)
    ensures e - p == q.contentLength ==>
              At(s0, data, q.(contentLength := 0, state := NewMessage(q)), left - {BodyKind}, e, q.upgrade,
                 Emit(log, BodyKind, data[left[BodyKind]..e]) + [Note(MessageComplete)])
  {
    hide At, Sane, Run, StepByte, Emit, MarkOf, NewMessage, BodySoFar;
    BodyReady(s0, data, q, marks, left, p, e, log);
    var s := Run(s0, data[..p]);
    BodyRun(s, data[p..e]);
    if e - p < q.contentLength {
      AtIntro(s0, data, q.(contentLength := q.contentLength - (e - p)), left, e, false, log);
    } else {
      NoMarks(map[], data, e);
      NextState(q);
      AtIntro(s0, data, q.(contentLength := 0, state := NewMessage(q)), left - {BodyKind}, e, q.upgrade,
              Emit(log, BodyKind, data[left[BodyKind]..e]) + [Note(MessageComplete)]);
    }
  }

  lemma NextState(q: Parser)
    ensures StatusOf(NewMessage(q)) == Shut
  {
  }

  /** What a bulk copy starts from. */
  lemma BodyReady(s0: Sim, data: Bytes, q: Parser, marks: Marks, left: Marks, p: nat, e: nat, log: Log)
    requires At(s0, data, q, marks, p, false, log) && (q.state.BodyIdentity? || q.state.ChunkData?)
    requires p < e <= |data|
    requires left == if BodyKind in marks then marks else marks[BodyKind := p]
    ensures Placed(left, e) && AtMostOne(left) && BodyKind in left && left - {BodyKind} == map[]
    ensures Placed(marks, p) && Fits(PerhapsBody, MarkOf(marks, data, p)) && q.errno == OK && s0.consumed == 0
    ensures Run(s0, data[..p]) == Sim(q, View(log, MarkOf(marks, data, p)), p, false)
    ensures Run(s0, data[..e]) == Run(Run(s0, data[..p]), data[p..e])
    ensures MarkOf(left, data, e) == Open(BodyKind, BodySoFar(MarkOf(marks, data, p), data[p..e]))
    ensures MarkOf(left, data, e) == Open(BodyKind, data[left[BodyKind]..e])
    ensures var r := Run(s0, data[..e]).parser; r.errno == OK ==> Sane(r)
  {
    hide Sane, StepByte, Emit, MarkOf, Run;
    AtNext(s0, data, p, e);
    BodyMark(marks, left, data, p, e);
    SaneAlways(Run(s0, data[..p]), data[p..e]);
    BodyLength(q);
  }

  lemma AtIntro(s0: Sim, data: Bytes, q: Parser, marks: Marks, p: nat, stop: bool, log: Log)
    requires p <= |data| && Placed(marks, p) && AtMostOne(marks)
    requires Sane(q)
    requires Run(s0, data[..p]) == Sim(q, View(log, MarkOf(marks, data, p)), p, stop)
    requires Fits(StatusOf(q.state), MarkOf(marks, data, p))
    requires s0.consumed == 0 && (stop ==> MarkOf(marks, data, p).NoMark?)
    ensures At(s0, data, q, marks, p, stop, log)
  {
    hide Sane, Run, MarkOf;
  }

  lemma ChunkFollows(s0: Sim, data: Bytes, q: Parser, marks: Marks, left: Marks, p: nat, e: nat, log: Log)
    requires At(s0, data, q, marks, p, false, log) && q.state.ChunkData?
    requires p < e <= |data| && e - p <= q.contentLength
    requires left == if BodyKind in marks then marks else marks[BodyKind := p]
    ensures var r := q.(contentLength := q.contentLength - (e - p));
            At(s0, data, if r.contentLength == 0 then r.(state := ChunkDataAlmostDone) else r, left, e, false, log)
  {
    hide At, Sane, Run, StepByte, Emit, MarkOf, BodySoFar;
    BodyReady(s0, data, q, marks, left, p, e, log);
    ChunkRun(Run(s0, data[..p]), data[p..e]);
    var r := q.(contentLength := q.contentLength - (e - p));
    AtIntro(s0, data, if r.contentLength == 0 then r.(state := ChunkDataAlmostDone) else r, left, e, false, log);
  }
}
