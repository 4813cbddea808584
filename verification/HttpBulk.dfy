/** Whole runs of bytes in one state: what the scanning loops and the bulk copies of the parser must amount to. */
module HttpBulk {
  import opened HttpTypes
  import opened HttpStep
  import opened HttpRun

  // ---------- field names ----------

  predicate AllTokens(bytes: Bytes) {
    forall i :: 0 <= i < |bytes| ==> Token(bytes[i]) != NUL
  }

  function FieldChars(p: Parser, bytes: Bytes): Parser
    decreases |bytes|
  {
    if bytes == [] then p else FieldChar(FieldChars(p, bytes[..|bytes| - 1]), bytes[|bytes| - 1])
  }

  /** A run that is taken byte by byte. */
  function TakeAll(m: Mark, bytes: Bytes): Mark {
    match m
    case NoMark => m
    case Open(k, run) => Open(k, run + bytes)
  }

  lemma MatchWordOnly(p: Parser, word: Bytes, c: Byte, whole: HeaderState, miss: HeaderState, n: nat)
    ensures var q := MatchWord(p, word, c, whole, miss);
            && q == p.(headerState := q.headerState, index := q.index)
            && MatchWord(p.(nread := n), word, c, whole, miss) == q.(nread := n)
  {
    hide CharAt;
    var q := MatchWord(p, word, c, whole, miss);
    assert q == p.(headerState := q.headerState, index := p.index + 1);
  }

  /** A letter of a field name changes only the matcher, and does not look at the header count. */
  lemma FieldCharOnly(p: Parser, ch: Byte, n: nat)
    ensures var q := FieldChar(p, ch);
            && q == p.(headerState := q.headerState, index := q.index, transferEncoding := q.transferEncoding)
            && FieldChar(p.(nread := n), ch) == q.(nread := n)
  {
    hide MatchWord, Token;
    var c := Token(ch);
    match p.headerState
    case MatchingConnection => MatchWordOnly(p, CONNECTION, c, HConnection, HGeneral, n);
    case MatchingProxyConnection => MatchWordOnly(p, PROXY_CONNECTION, c, HConnection, HGeneral, n);
    case MatchingContentLength => MatchWordOnly(p, CONTENT_LENGTH, c, HContentLength, HGeneral, n);
    case MatchingTransferEncoding => MatchWordOnly(p, TRANSFER_ENCODING, c, HTransferEncoding, HGeneral, n);
    case MatchingUpgrade => MatchWordOnly(p, UPGRADE, c, HUpgrade, HGeneral, n);
    case _ =>
  }

  /** A run of token bytes: the header count grows by its length, and overflows if it exceeds the limit. */
  lemma {:induction false} FieldRun(s: Sim, bytes: Bytes)
    requires !Halted(s) && s.parser.state.HeaderField? && s.parser.nread <= MAX_HEADER_SIZE && AllTokens(bytes)
    ensures var n, r := s.parser.nread + |bytes|, Run(s, bytes);
            if n > MAX_HEADER_SIZE then r.parser.errno == HeaderOverflow
            else r == Sim(FieldChars(s.parser, bytes).(nread := n), s.view.(mark := TakeAll(s.view.mark, bytes)),
                  s.consumed + |bytes|, false)
    ensures var q := FieldChars(s.parser, bytes);
            q == s.parser.(headerState := q.headerState, index := q.index, transferEncoding := q.transferEncoding)
    decreases |bytes|
  {
    hide FieldChar, StepByte, Token;
    if bytes == [] {
      assert s.view.mark.Open? ==> s.view.mark.run + [] == s.view.mark.run;
    } else {
      var k := |bytes| - 1;
      var b, ch := bytes[..k], bytes[k];
      FieldRun(s, b);
      FieldCharOnly(FieldChars(s.parser, b), ch, s.parser.nread + k);
      assert b + [ch] == bytes;
      assert s.view.mark.Open? ==> s.view.mark.run + b + [ch] == s.view.mark.run + bytes;
      if s.parser.nread + k <= MAX_HEADER_SIZE {
        FieldStep(Run(s, b), ch);
      } else {
        HaltedByte(Run(s, b), ch);
      }
    }
  }

  lemma FieldStep(s: Sim, ch: Byte)
    requires !Halted(s) && s.parser.state.HeaderField? && Token(ch) != NUL
    ensures var n, r := s.parser.nread + 1, StepByte(s, ch);
            if n > MAX_HEADER_SIZE then r.parser.errno == HeaderOverflow
            else r == Sim(FieldChar(s.parser, ch).(nread := n), s.view.(mark := Take(s.view.mark, ch)), s.consumed + 1,
                  false)
  {
    hide FieldChar, Token;
    FieldCharOnly(s.parser, ch, s.parser.nread + 1);
  }

  // ---------- header values ----------

  predicate NoLineEnd(bytes: Bytes) {
    forall i :: 0 <= i < |bytes| ==> bytes[i] != CR && bytes[i] != LF
  }

  function ValueChars(p: Parser, bytes: Bytes): Parser
    decreases |bytes|
  {
    if bytes == [] then p
    else
      var q := ValueChars(p, bytes[..|bytes| - 1]);
      if q.errno != OK then q else ValueChar(q, bytes[|bytes| - 1])
  }

  lemma LengthCharOnly(p: Parser, ch: Byte, n: nat)
    ensures var q := LengthChar(p, ch);
            && q == p.(headerState := q.headerState, contentLength := q.contentLength, errno := q.errno)
            && LengthChar(p.(nread := n), ch) == q.(nread := n)
  {
  }

  lemma CodingCharOnly(p: Parser, ch: Byte, n: nat)
    ensures var q := CodingChar(p, ch);
            && q == p.(headerState := q.headerState, index := q.index)
            && CodingChar(p.(nread := n), ch) == q.(nread := n)
  {
    hide MatchWord, Token, Lower;
    MatchWordOnly(p, CHUNKED, Lower(ch), TEChunked, TEToken, n);
  }

  lemma ConnectionCharOnly(p: Parser, ch: Byte, n: nat)
    ensures var q := ConnectionChar(p, ch);
            && q == p.(headerState := q.headerState, index := q.index, flags := q.flags)
            && ConnectionChar(p.(nread := n), ch) == q.(nread := n)
  {
    hide MatchWord, Token, Lower;
    match p.headerState
    case ConnMatchingKeepAlive => MatchWordOnly(p, KEEP_ALIVE, Lower(ch), ConnKeepAlive, ConnToken, n);
    case ConnMatchingClose => MatchWordOnly(p, CLOSE, Lower(ch), ConnClose, ConnToken, n);
    case ConnMatchingUpgrade => MatchWordOnly(p, UPGRADE, Lower(ch), ConnUpgrade, ConnToken, n);
    case _ =>
  }

  /** A byte of a value leaves the state, the version and the method alone, and does not look at the header count. */
  lemma ValueCharOnly(p: Parser, ch: Byte, n: nat)
    ensures var q := ValueChar(p, ch);
            && q == p.(headerState := q.headerState, index := q.index, contentLength := q.contentLength,
                  flags := q.flags, errno := q.errno)
            && ValueChar(p.(nread := n), ch) == q.(nread := n)
  {
    hide LengthChar, CodingChar, ConnectionChar, IsHeaderChar;
    LengthCharOnly(p, ch, n);
    CodingCharOnly(p, ch, n);
    ConnectionCharOnly(p, ch, n);
  }

  lemma ValueStep(s: Sim, ch: Byte)
    requires !Halted(s) && s.parser.state.HeaderValue? && ch != CR && ch != LF
    ensures var n, r, q := s.parser.nread + 1, StepByte(s, ch), ValueChar(s.parser, ch);
            if n > MAX_HEADER_SIZE then r.parser.errno == HeaderOverflow
            else if q.errno != OK then r == Sim(q.(nread := n), s.view, s.consumed, false)
            else r == Sim(q.(nread := n), s.view.(mark := Take(s.view.mark, ch)), s.consumed + 1, false)
  {
    hide ValueChar;
    ValueCharOnly(s.parser, ch, s.parser.nread + 1);
  }

  /** A run of value bytes without an error: the count grows by its length, and overflows if it exceeds the limit. */
  lemma {:induction false} ValueRun(s: Sim, bytes: Bytes)
    requires !Halted(s) && s.parser.state.HeaderValue? && s.parser.nread <= MAX_HEADER_SIZE && NoLineEnd(bytes)
    requires ValueChars(s.parser, bytes).errno == OK
    ensures var n, r := s.parser.nread + |bytes|, Run(s, bytes);
            if n > MAX_HEADER_SIZE then r.parser.errno == HeaderOverflow
            else r == Sim(ValueChars(s.parser, bytes).(nread := n), s.view.(mark := TakeAll(s.view.mark, bytes)),
                  s.consumed + |bytes|, false)
    ensures var q := ValueChars(s.parser, bytes);
            q == s.parser.(headerState := q.headerState, index := q.index, contentLength := q.contentLength,
                  flags := q.flags)
    decreases |bytes|
  {
    hide ValueChar, StepByte;
    if bytes == [] {
      assert s.view.mark.Open? ==> s.view.mark.run + [] == s.view.mark.run;
    } else {
      var k := |bytes| - 1;
      var b, ch := bytes[..k], bytes[k];
      ValueRun(s, b);
      ValueCharOnly(ValueChars(s.parser, b), ch, s.parser.nread + k);
      assert b + [ch] == bytes;
      assert s.view.mark.Open? ==> s.view.mark.run + b + [ch] == s.view.mark.run + bytes;
      if s.parser.nread + k <= MAX_HEADER_SIZE {
        ValueStep(Run(s, b), ch);
      } else {
        HaltedByte(Run(s, b), ch);
      }
    }
  }

  // ---------- bodies ----------

  /** The body run after `bytes` more: an open run grows, otherwise one begins. */
  function BodySoFar(m: Mark, bytes: Bytes): Bytes {
    match m
    case NoMark => bytes
    case Open(_, run) => run + bytes
  }

  lemma BodyDispatch(p: Parser, ch: Byte)
    requires p.state.BodyIdentity? && 0 < p.contentLength
    ensures Dispatch(p, ch) ==
            if p.contentLength == 1
            then Out(p.(contentLength := 0, state := NewMessage(p)),
                  [Mark(BodyKind), FlushThrough(BodyKind), Tell(MessageComplete)], p.upgrade)
            else Out(p.(contentLength := p.contentLength - 1), [Mark(BodyKind)], false)
  {
  }

  lemma BodyStep(s: Sim, ch: Byte)
    requires !Halted(s) && s.parser.state.BodyIdentity? && 0 < s.parser.contentLength
    requires s.view.mark.Open? ==> s.view.mark.kind.BodyKind?
    ensures StepByte(s, ch) == BodyAfter(s, [ch])
  {
    hide Emit, PerformAll, Dispatch, NewMessage;
    BodyDispatch(s.parser, ch);
    MarkFlushTell(s.view, ch);
    assert [] + [ch] == [ch];
    assert s.view.mark.Open? ==> s.view.mark.run + [] + [ch] == s.view.mark.run + [ch];
  }

  lemma MarkFlushTell(v: View, ch: Byte)
    requires v.mark.Open? ==> v.mark.kind.BodyKind?
    ensures PerformAll(v, [Mark(BodyKind)], ch) == v.(mark := Open(BodyKind, BodySoFar(v.mark, [])))
    ensures PerformAll(v, [Mark(BodyKind), FlushThrough(BodyKind), Tell(MessageComplete)], ch)
         == View(Emit(v.log, BodyKind, BodySoFar(v.mark, [ch])) + [Note(MessageComplete)], NoMark)
  {
    hide Emit;
    var acts := [Mark(BodyKind), FlushThrough(BodyKind), Tell(MessageComplete)];
    assert acts[1..] == [FlushThrough(BodyKind), Tell(MessageComplete)];
    assert acts[1..][1..] == [Tell(MessageComplete)];
    var v1 := Perform(v, Mark(BodyKind), ch);
    assert v.mark.Open? ==> v.mark.run + [] == v.mark.run;
    assert v1 == v.(mark := Open(BodyKind, BodySoFar(v.mark, [])));
    assert [] + [ch] == [ch];
    var v2 := Perform(v1, FlushThrough(BodyKind), ch);
    assert PerformAll(v2, [Tell(MessageComplete)], ch) == View(v2.log + [Note(MessageComplete)], NoMark);
    assert PerformAll(v, [Mark(BodyKind)], ch) == PerformAll(v1, [], ch);
  }

  /** `bytes` of a body of declared length: the run grows; with the last byte it is handed over and the message ends. */
  function BodyAfter(s: Sim, bytes: Bytes): Sim
    requires 0 < |bytes| <= s.parser.contentLength
  {
    var p := s.parser;
    var run := BodySoFar(s.view.mark, bytes);
    if |bytes| < p.contentLength then
      Sim(p.(contentLength := p.contentLength - |bytes|), s.view.(mark := Open(BodyKind, run)), s.consumed + |bytes|,
          false)
    else
      Sim(p.(contentLength := 0, state := NewMessage(p)),
          View(Emit(s.view.log, BodyKind, run) + [Note(MessageComplete)], NoMark), s.consumed + |bytes|, p.upgrade)
  }

  lemma {:induction false} BodyRun(s: Sim, bytes: Bytes)
    requires !Halted(s) && s.parser.state.BodyIdentity? && 0 < |bytes| <= s.parser.contentLength
    requires s.view.mark.Open? ==> s.view.mark.kind.BodyKind?
    ensures Run(s, bytes) == BodyAfter(s, bytes)
    decreases |bytes|
  {
    hide StepByte, Emit;
    var k := |bytes| - 1;
    var b, ch := bytes[..k], bytes[k];
    assert b + [ch] == bytes;
    if k == 0 {
      assert Run(s, []) == s && bytes == [ch];
      BodyStep(s, ch);
    } else {
      BodyRun(s, b);
      BodyStep(Run(s, b), ch);
      assert s.view.mark.Open? ==> s.view.mark.run + b + [ch] == s.view.mark.run + bytes;
    }
  }

  /** `bytes` of a chunk: the run grows; with the last byte the end of the line is awaited. */
  function ChunkAfter(s: Sim, bytes: Bytes): Sim
    requires 0 < |bytes| <= s.parser.contentLength
  {
    var p := s.parser;
    var q := p.(contentLength := p.contentLength - |bytes|);
    Sim(if q.contentLength == 0 then q.(state := ChunkDataAlmostDone) else q,
        s.view.(mark := Open(BodyKind, BodySoFar(s.view.mark, bytes))), s.consumed + |bytes|, false)
  }

  lemma ChunkStep(s: Sim, ch: Byte)
    requires !Halted(s) && s.parser.state.ChunkData? && 0 < s.parser.contentLength
    requires s.view.mark.Open? ==> s.view.mark.kind.BodyKind?
    ensures StepByte(s, ch) == ChunkAfter(s, [ch])
  {
    hide Emit, PerformAll;
    MarkFlushTell(s.view, ch);
    assert [] + [ch] == [ch];
    assert s.view.mark.Open? ==> s.view.mark.run + [] + [ch] == s.view.mark.run + [ch];
  }

  lemma {:induction false} ChunkRun(s: Sim, bytes: Bytes)
    requires !Halted(s) && s.parser.state.ChunkData? && 0 < |bytes| <= s.parser.contentLength
    requires s.view.mark.Open? ==> s.view.mark.kind.BodyKind?
    ensures Run(s, bytes) == ChunkAfter(s, bytes)
    decreases |bytes|
  {
    hide StepByte, Emit;
    var k := |bytes| - 1;
    var b, ch := bytes[..k], bytes[k];
    assert b + [ch] == bytes;
    if k == 0 {
      assert Run(s, []) == s && bytes == [ch];
      ChunkStep(s, ch);
    } else {
      ChunkRun(s, b);
      ChunkStep(Run(s, b), ch);
      assert s.view.mark.Open? ==> s.view.mark.run + b + [ch] == s.view.mark.run + bytes;
    }
  }
}
