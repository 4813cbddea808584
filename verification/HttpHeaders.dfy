/** One header line, from the first letter of its name to the end of the line. */
module HttpHeaders {
  import opened HttpTypes
  import opened HttpStep
  import opened HttpRun
  import opened HttpBulk
  import opened HttpNames
  import opened HttpLists

  // ---------- headers ----------

  /** name `:` blanks value, and the end of the line: CR LF or LF alone. */
  datatype Header = Header(name: Bytes, lead: Bytes, value: Bytes, bare: bool)

  function EndOfLine(bare: bool): Bytes {
    if bare then [LF] else [CR, LF]
  }

  function HeaderText(h: Header): Bytes {
    h.name + [':'] + h.lead + h.value + EndOfLine(h.bare)
  }

  predicate Blank(c: Byte) {
    c == ' ' || c == '\t'
  }

  predicate AllBlank(bytes: Bytes) {
    forall i :: 0 <= i < |bytes| ==> Blank(bytes[i])
  }

  predicate WellHeader(h: Header) {
    IsName(h.name) && AllBlank(h.lead) && IsText(h.value) && (h.value != [] ==> !Blank(h.value[0]))
  }

  // ---------- lengths ----------

  function LeadingDigits(v: Bytes): (digits: Bytes)
    ensures AllNum(digits) && digits <= v
    decreases |v|
  {
    if v == [] then []
    else
      var digits := LeadingDigits(v[..|v| - 1]);
      if |digits| == |v| - 1 && '0' <= v[|v| - 1] <= '9' then v else digits
  }

  /** Digits, whose number without the last is within the limit, and spaces. */
  predicate IsLengthValue(v: Bytes) {
    var digits := LeadingDigits(v);
    && digits != [] && (forall i :: |digits| <= i < |v| ==> v[i] == ' ')
    && Decimal(digits[..|digits| - 1]) <= 1844674407370955160
  }

  /** The parser has read such a value. */
  predicate HasLength(p: Parser, q: Parser, v: Bytes) {
    var digits := LeadingDigits(v);
    q == p.(contentLength := q.contentLength, headerState := q.headerState) && q.contentLength == Decimal(digits)
    && q.headerState == if digits == v then HContentLengthNum else HContentLengthWs
  }

  lemma LengthBegins(p: Parser, c: Byte)
    requires p.headerState.HContentLength? && p.errno == OK
    ensures var q := OnValueStart(p, c).parser;
            var p0 := p.(state := HeaderValue, index := 0, flags := p.flags.(contentLength := true));
            if p.flags.contentLength || !IsLengthValue([c]) then q.errno != OK else HasLength(p0, q, [c])
    ensures !IsLengthValue([c]) ==> LeadingDigits([c]) == []
  {
    hide Lower;
    assert [c][..0] == [] && LeadingDigits([]) == [];
  }

  lemma LengthMore(v: Bytes, c: Byte)
    requires IsLengthValue(v)
    ensures var digits, u := LeadingDigits(v), v + [c];
            if digits == v && '0' <= c <= '9' then
              && LeadingDigits(u) == u && (IsLengthValue(u) <==> Decimal(v) <= 1844674407370955160)
              && AllNum(u) && Decimal(u) == Decimal(v) * 10 + (c as int - '0' as int)
            else LeadingDigits(u) == digits && digits != u && (IsLengthValue(u) <==> c == ' ')
  {
    var digits, u := LeadingDigits(v), v + [c];
    assert u[..|v|] == v && u[|v|] == c;
    assert |digits| == |v| <==> digits == v;
    if digits == v && '0' <= c <= '9' {
      assert u[..|u| - 1] == v;
    } else {
      assert LeadingDigits(u) == digits;
      hide LeadingDigits, Decimal;
      assert forall i :: |digits| <= i < |v| ==> u[i] == v[i];
    }
  }

  lemma LengthByte(p: Parser, q: Parser, v: Bytes, c: Byte)
    requires HasLength(p, q, v) && IsLengthValue(v) && p.errno == OK && TextByte(c)
    ensures if IsLengthValue(v + [c]) then HasLength(p, ValueChar(q, c), v + [c]) else ValueChar(q, c).errno != OK
  {
    hide CodingChar, ConnectionChar, LeadingDigits, Decimal, IsLengthValue;
    LengthMore(v, c);
  }

  lemma {:induction false} LengthRun(p: Parser, v: Bytes, n: nat)
    requires p.headerState.HContentLength? && p.errno == OK && IsText(v) && 0 < n <= |v|
    ensures var q0 := OnValueStart(p, v[0]).parser;
            var p0 := p.(state := HeaderValue, index := 0, flags := p.flags.(contentLength := true));
            if p.flags.contentLength || !IsLengthValue(v[..1]) then q0.errno != OK
            else
              var q := ValueChars(q0, v[1..n]);
              q0.errno == OK && if IsLengthValue(v[..n]) then HasLength(p0, q, v[..n]) else q.errno != OK
    ensures IsLengthValue(v[..n]) ==> IsLengthValue(v[..1])
    decreases n
  {
    hide TextByte, OnValueStart, ValueChar, HasLength, IsLengthValue;
    var q0 := OnValueStart(p, v[0]).parser;
    assert v[..1] == [v[0]] && v[1..1] == [];
    LengthBegins(p, v[0]);
    if n > 1 {
      var m := n - 1;
      LengthRun(p, v, m);
      assert v[1..n][..m - 1] == v[1..m] && v[1..n][m - 1] == v[m] && v[..n] == v[..m] + [v[m]];
      LengthShrinks(v[..m], v[m]);
      if !p.flags.contentLength && IsLengthValue(v[..m]) {
        var p0 := p.(state := HeaderValue, index := 0, flags := p.flags.(contentLength := true));
        LengthByte(p0, ValueChars(q0, v[1..m]), v[..m], v[m]);
        HasLengthKeeps(p0, ValueChars(q0, v[1..m]), v[..m]);
      }
    }
    if !p.flags.contentLength && IsLengthValue(v[..1]) {
      HasLengthKeeps(p.(state := HeaderValue, index := 0, flags := p.flags.(contentLength := true)), q0, v[..1]);
    }
  }

  lemma HasLengthKeeps(p: Parser, q: Parser, v: Bytes)
    requires HasLength(p, q, v)
    ensures q.errno == p.errno
  {
  }

  lemma LengthShrinks(v: Bytes, c: Byte)
    requires v != []
    ensures IsLengthValue(v + [c]) ==> IsLengthValue(v)
  {
    var u, digits := v + [c], LeadingDigits(v + [c]);
    assert u[..|v|] == v && u[|v|] == c;
    if IsLengthValue(u) {
      if |digits| == |u| {
        assert digits == u && LeadingDigits(v) == v;
        assert u[..|u| - 1] == v;
        assert Decimal(v[..|v| - 1]) <= Decimal(v);
      } else {
        assert LeadingDigits(v) == digits;
        hide LeadingDigits, Decimal;
        assert forall i :: |digits| <= i < |v| ==> u[i] == v[i];
      }
    }
  }

  // ---------- what a header does ----------

  /** The flags after a header of this meaning and value. */
  ghost function NewFlags(m: Meaning, flags: Flags, v: Bytes): Flags {
    match m
    case IsConnection => ListFlags(Options, flags, v)
    case IsCoding => ListFlags(Codings, flags, v)
    case IsLength => flags.(contentLength := true)
    case IsUpgrade => flags.(upgrade := flags.upgrade || v != [])
    case IsOther => flags
  }

  function NewLength(m: Meaning, length: int, v: Bytes): int {
    if m.IsLength? then Decimal(LeadingDigits(v)) else length
  }

  /** A header is accepted unless it declares a length a second time, or none. */
  predicate Takes(m: Meaning, flags: Flags, v: Bytes) {
    m.IsLength? ==> !flags.contentLength && IsLengthValue(v)
  }

  /** What the parser `q` behind a header is like, `p` being before its value. */
  ghost predicate Took(p: Parser, m: Meaning, v: Bytes, q: Parser) {
    && q.contentLength == NewLength(m, p.contentLength, v)
    && FinishHeader(q) == p.(state := q.state, headerState := q.headerState, index := q.index, nread := q.nread,
                             flags := NewFlags(m, p.flags, v), contentLength := q.contentLength)
  }

  lemma {:induction false} PlainRun(q: Parser, v: Bytes)
    requires q.headerState.HGeneral? && q.errno == OK && IsText(v)
    ensures ValueChars(q, v) == q
    decreases |v|
  {
    hide TextByte;
    if v != [] {
      PlainRun(q, v[..|v| - 1]);
      TextIsHeader(v[|v| - 1]);
    }
  }

  lemma TextIsHeader(c: Byte)
    ensures TextByte(c) <==> IsHeaderChar(c) && c != CR && c != LF
  {
  }

  /** A byte that no value may contain is refused. */
  lemma BadByteRefused(s: Sim, c: Byte)
    requires !Halted(s) && s.parser.state.HeaderValue? && s.parser.nread < 81920
    requires !TextByte(c) && c != '\r' && c != '\n'
    ensures StepByte(s, c).parser.errno == InvalidHeaderToken
  {
    TextIsHeader(c);
    hide TextByte, IsHeaderChar;
  }

  lemma PlainBegins(p: Parser, m: Meaning, c: Byte)
    requires Tells(p.headerState, m) && (m.IsUpgrade? || m.IsOther?)
    ensures OnValueStart(p, c).parser ==
            p.(state := HeaderValue, index := 0, headerState := HGeneral,
               flags := if m.IsUpgrade? then p.flags.(upgrade := true) else p.flags)
  {
  }

  lemma TailIsText(v: Bytes)
    requires IsText(v) && v != []
    ensures IsText(v[1..]) && NoLineEnd(v[1..]) && TextByte(v[0])
  {
    hide TextByte;
    forall i | 0 <= i < |v| - 1 ensures v[1..][i] != CR && v[1..][i] != LF {
      TextIsHeader(v[i + 1]);
    }
  }

  lemma ValueEffect(p: Parser, m: Meaning, v: Bytes)
    requires Tells(p.headerState, m) && p.errno == OK && IsText(v) && v != []
    ensures var q0 := OnValueStart(p, v[0]).parser;
            if Takes(m, p.flags, v) then
              var q := ValueChars(q0, v[1..]);
              q0.errno == OK && q.errno == OK && q.state == HeaderValue && q.nread == p.nread && Took(p, m, v, q)
            else q0.errno != OK || ValueChars(q0, v[1..]).errno != OK
  {
    hide OnValueStart, ValueChars, TextByte, IsText, ListFlags, IsLengthValue, LeadingDigits, Decimal;
    match m
    case IsConnection => ListRead(Options, p, v);
    case IsCoding => ListRead(Codings, p, v);
    case IsLength => LengthEffect(p, v);
    case _ =>
      PlainBegins(p, m, v[0]);
      TailIsText(v);
      PlainRun(OnValueStart(p, v[0]).parser, v[1..]);
  }

  lemma LengthEffect(p: Parser, v: Bytes)
    requires p.headerState.HContentLength? && p.errno == OK && IsText(v) && v != []
    ensures var q0 := OnValueStart(p, v[0]).parser;
            if Takes(IsLength, p.flags, v) then
              var q := ValueChars(q0, v[1..]);
              q0.errno == OK && q.errno == OK && q.state == HeaderValue && q.nread == p.nread && Took(p, IsLength, v, q)
            else q0.errno != OK || ValueChars(q0, v[1..]).errno != OK
  {
    hide OnValueStart, ValueChars, IsText, IsLengthValue, LeadingDigits, Decimal;
    LengthRun(p, v, |v|);
    assert v[..|v|] == v && v[1..|v|] == v[1..];
  }

  // ---------- a header read ----------

  /** The parser and the open run, some bytes further on. */
  predicate Further(s: Sim, n: nat, r: Sim) {
    !Halted(r) && r.consumed == s.consumed + n && r.parser.nread == s.parser.nread + n
  }

  lemma BlankStep(s: Sim, c: Byte)
    requires !Halted(s) && s.parser.state.ValueDiscardWs? && s.view.mark.NoMark? && s.parser.nread < 81920 && Blank(c)
    ensures StepByte(s, c) ==
            Sim(s.parser.(nread := s.parser.nread + 1), s.view, s.consumed + 1, false)
  {
    hide OnValueStart;
  }

  lemma {:induction false} BlankRun(s: Sim, lead: Bytes)
    requires !Halted(s) && s.parser.state.ValueDiscardWs? && s.view.mark.NoMark?
    requires s.parser.nread + |lead| <= 81920 && AllBlank(lead)
    ensures Run(s, lead) == Sim(s.parser.(nread := s.parser.nread + |lead|), s.view, s.consumed + |lead|, false)
    decreases |lead|
  {
    hide StepByte;
    if lead != [] {
      var n := |lead| - 1;
      BlankRun(s, lead[..n]);
      BlankStep(Run(s, lead[..n]), lead[n]);
    }
  }

  lemma ValueFirst(s: Sim, c: Byte)
    requires !Halted(s) && s.parser.state.ValueDiscardWs? && s.view.mark.NoMark? && s.parser.nread < 81920
    requires TextByte(c) && !Blank(c)
    ensures var q := OnValueStart(s.parser.(nread := s.parser.nread + 1), c).parser;
            && q.state.HeaderValue? && q.nread == s.parser.nread + 1
            && StepByte(s, c) ==
               if q.errno != OK then Sim(q, s.view.(mark := Open(ValueKind, [])), s.consumed, false)
               else Sim(q, s.view.(mark := Open(ValueKind, [c])), s.consumed + 1, false)
  {
    var p := s.parser.(nread := s.parser.nread + 1);
    ValueStartActs(p, c);
    ValueStartDispatch(p, c);
    assert [] + [c] == [c];
    hide OnValueStart, TextByte, Blank, Dispatch, StepByte;
    if OnValueStart(p, c).parser.errno == OK {
      OneActStep(s, c, OnValueStart(p, c).parser, Mark(ValueKind));
    } else {
      OneActFails(s, c, OnValueStart(p, c).parser, Mark(ValueKind));
    }
  }

  lemma ValueStartDispatch(p: Parser, c: Byte)
    requires p.state.ValueDiscardWs? && TextByte(c) && !Blank(c)
    ensures Dispatch(p, c) == OnValueStart(p, c)
  {
    TextIsHeader(c);
    hide OnValueStart, TextByte;
  }

  lemma ValueStartActs(p: Parser, c: Byte)
    ensures OnValueStart(p, c).acts == [Mark(ValueKind)] && !OnValueStart(p, c).stop
    ensures OnValueStart(p, c).parser.state.HeaderValue? && OnValueStart(p, c).parser.nread == p.nread
  {
  }

  lemma {:induction false} ValueRunFails(s: Sim, bytes: Bytes)
    requires !Halted(s) && s.parser.state.HeaderValue? && s.parser.nread + |bytes| <= 81920 && NoLineEnd(bytes)
    requires ValueChars(s.parser, bytes).errno != OK
    ensures Run(s, bytes).parser.errno != OK
    decreases |bytes|
  {
    hide ValueChar, StepByte;
    if bytes == [] {
      RunNothing(s);
    } else {
      var k := |bytes| - 1;
      var b, ch := bytes[..k], bytes[k];
      if ValueChars(s.parser, b).errno != OK {
        ValueRunFails(s, b);
        HaltedByte(Run(s, b), ch);
      } else {
        ValueRun(s, b);
        ValueStep(Run(s, b), ch);
        ValueCharOnly(ValueChars(s.parser, b), ch, s.parser.nread + k);
      }
    }
  }

  lemma TookCount(p: Parser, p1: Parser, m: Meaning, v: Bytes, q: Parser, n: nat)
    requires Took(p1, m, v, q) && p1 == p.(nread := p1.nread)
    ensures Took(p, m, v, q.(nread := n))
  {
    hide NewFlags, NewLength;
  }

  lemma ValueRead(s: Sim, m: Meaning, v: Bytes)
    requires !Halted(s) && s.parser.state.ValueDiscardWs? && s.view.mark.NoMark? && Tells(s.parser.headerState, m)
    requires IsText(v) && v != [] && !Blank(v[0]) && s.parser.nread + |v| <= 81920
    ensures var r := Run(s, v);
            if Takes(m, s.parser.flags, v) then
              && Further(s, |v|, r) && r.view == s.view.(mark := Open(ValueKind, v))
              && r.parser.state.HeaderValue? && Took(s.parser, m, v, r.parser)
            else r.parser.errno != OK
  {
    hide StepByte, Run, OnValueStart, ValueChars, IsText, Took, Takes, Tells, TextByte, Blank, NoLineEnd;
    var p1, rest := s.parser.(nread := s.parser.nread + 1), v[1..];
    var q0 := OnValueStart(p1, v[0]).parser;
    TailIsText(v);
    assert v == [v[0]] + rest;
    RunOne(s, v[0]);
    RunConcat(s, [v[0]], rest);
    ValueFirst(s, v[0]);
    ValueEffect(p1, m, v);
    if q0.errno != OK {
      HaltedStays(Run(s, [v[0]]), rest);
    } else if ValueChars(q0, rest).errno != OK {
      ValueRunFails(Run(s, [v[0]]), rest);
    } else {
      ValueRun(Run(s, [v[0]]), rest);
      TookCount(s.parser, p1, m, v, ValueChars(q0, rest), s.parser.nread + |v|);
    }
  }

  lemma LineFeed(s: Sim)
    requires !Halted(s) && s.view.mark.NoMark? && s.parser.nread < 81920
    requires s.parser.state.HeaderAlmostDone? || s.parser.state.ValueDiscardWsAlmostDone?
    ensures StepByte(s, LF) ==
            Sim(s.parser.(state := if s.parser.state.HeaderAlmostDone? then ValueLws else ValueDiscardLws,
                          nread := s.parser.nread + 1), s.view, s.consumed + 1, false)
  {
  }

  lemma ValueEnds(s: Sim, run: Bytes, bare: bool)
    requires !Halted(s) && s.parser.state.HeaderValue? && s.view.mark == Open(ValueKind, run) && s.parser.nread < 81920
    ensures StepByte(s, if bare then LF else CR) ==
            Sim(s.parser.(state := if bare then ValueLws else HeaderAlmostDone, nread := s.parser.nread + 1),
                View(Emit(s.view.log, ValueKind, run), NoMark), s.consumed + 1, false)
  {
    PerformOne(s.view, Flush(ValueKind), if bare then LF else CR);
    hide PerformAll, Emit, ValueChar;
  }

  lemma NoValue(s: Sim, bare: bool)
    requires !Halted(s) && s.parser.state.ValueDiscardWs? && s.view.mark.NoMark? && s.parser.nread < 81920
    ensures StepByte(s, if bare then LF else CR) ==
            Sim(s.parser.(state := if bare then ValueDiscardLws else ValueDiscardWsAlmostDone,
                          nread := s.parser.nread + 1), s.view, s.consumed + 1, false)
  {
    hide OnValueStart;
  }

  /** The end of the line behind a value, or behind none. */
  lemma LineEnds(s: Sim, v: Bytes, bare: bool)
    requires !Halted(s) && s.parser.nread + |EndOfLine(bare)| <= 81920
    requires if v != [] then s.parser.state.HeaderValue? && s.view.mark == Open(ValueKind, v)
             else s.parser.state.ValueDiscardWs? && s.view.mark.NoMark?
    ensures Run(s, EndOfLine(bare)) ==
            Sim(s.parser.(state := if v != [] then ValueLws else ValueDiscardLws,
                          nread := s.parser.nread + |EndOfLine(bare)|),
                if v != [] then View(Emit(s.view.log, ValueKind, v), NoMark) else s.view,
                s.consumed + |EndOfLine(bare)|, false)
  {
    hide StepByte, Run, Emit;
    var ch := if bare then LF else CR;
    if v != [] {
      ValueEnds(s, v, bare);
    } else {
      NoValue(s, bare);
    }
    RunOne(s, ch);
    if !bare {
      LineFeed(StepByte(s, CR));
      RunConcat(s, [CR], [LF]);
      RunOne(StepByte(s, CR), LF);
      assert [CR] + [LF] == EndOfLine(bare);
    }
  }

  // ---------- headers in a row ----------

  /**
   * Behind the line of a header the parser waits for the next byte to see that the value does not go on; when it does
   * not, all is as if the header were finished, and an empty value handed over.
   */
  function Finished(s: Sim): Sim {
    var p := FinishHeader(s.parser).(state := HeaderFieldStart);
    match s.parser.state
    case ValueLws => s.(parser := p)
    case ValueDiscardLws => s.(parser := p, view := s.view.(log := Emit(s.view.log, ValueKind, [])))
    case _ => s
  }

  /** Behind the line of a header that is not refused. */
  predicate BehindLine(s: Sim) {
    && !Halted(s) && s.view.mark.NoMark?
    && (s.parser.state.ValueLws? || (s.parser.state.ValueDiscardLws? && !s.parser.headerState.HContentLength?))
  }

  lemma FinishCount(p: Parser, n: nat)
    ensures FinishHeader(p.(nread := n)) == FinishHeader(p).(nread := n)
    ensures FinishHeader(p).errno == p.errno && FinishHeader(p).nread == p.nread
  {
  }

  lemma FieldStartActs(p: Parser, ch: Byte, acts: seq<Act>)
    ensures var o := OnFieldStart(p, ch, []);
            OnFieldStart(p, ch, acts) == o.(acts := acts + o.acts)
  {
    hide Token, FirstFieldState, OnHeadersDone;
    HeadersAlmostDoneActs(p.(state := HeadersAlmostDone), ch, acts);
    assert acts + [] == acts && [] + [Mark(FieldKind)] == [Mark(FieldKind)];
    hide OnHeadersAlmostDone;
  }

  lemma HeadersAlmostDoneActs(p: Parser, ch: Byte, acts: seq<Act>)
    ensures var o := OnHeadersAlmostDone(p, ch, []);
            OnHeadersAlmostDone(p, ch, acts) == o.(acts := acts + o.acts)
  {
    hide NewMessage;
    assert acts + [] == acts && [] + [Tell(ChunkComplete)] == [Tell(ChunkComplete)];
    assert acts + [Tell(ChunkComplete)] + [Tell(MessageComplete)]
        == acts + ([] + [Tell(ChunkComplete)] + [Tell(MessageComplete)]);
    assert [] + [Tell(HeadersComplete)] == [Tell(HeadersComplete)];
    var up := (p.flags.upgrade && p.flags.connUpgrade) || p.verb.CONNECT?;
    var q := p.(state := HeadersDone, upgrade := up);
    HeadersDoneActs(q, ch, [Tell(HeadersComplete)]);
    HeadersDoneActs(q, ch, acts + [Tell(HeadersComplete)]);
    assert acts + [Tell(HeadersComplete)] + OnHeadersDone(q, ch, []).acts
        == acts + ([Tell(HeadersComplete)] + OnHeadersDone(q, ch, []).acts);
    hide OnHeadersDone;
  }

  lemma HeadersDoneActs(p: Parser, ch: Byte, acts: seq<Act>)
    ensures var o := OnHeadersDone(p, ch, []);
            OnHeadersDone(p, ch, acts) == o.(acts := acts + o.acts)
  {
    hide NewMessage, HasBody;
    assert acts + [] == acts && acts + ([] + [Tell(MessageComplete)]) == acts + [Tell(MessageComplete)];
  }

  lemma {:induction false} PerformConcat(v: View, a: seq<Act>, b: seq<Act>, ch: Byte)
    ensures PerformAll(v, a + b, ch) == PerformAll(PerformAll(v, a, ch), b, ch)
    decreases |a|
  {
    hide Perform;
    if a == [] {
      assert a + b == b;
    } else {
      assert (a + b)[1..] == a[1..] + b;
      PerformConcat(Perform(v, a[0], ch), a[1..], b, ch);
    }
  }

  lemma EmptyValue(v: View, ch: Byte)
    requires v.mark.NoMark?
    ensures PerformAll(v, [Mark(ValueKind), Flush(ValueKind)], ch) == v.(log := Emit(v.log, ValueKind, []))
  {
    hide Emit;
    var acts := [Mark(ValueKind), Flush(ValueKind)];
    assert acts[1..] == [Flush(ValueKind)];
    PerformOne(Perform(v, acts[0], ch), acts[1], ch);
  }

  lemma LwsDispatch(p: Parser, ch: Byte)
    requires p.state.ValueLws? && !Blank(ch)
    ensures Dispatch(p, ch) == Dispatch(FinishHeader(p).(state := HeaderFieldStart), ch)
  {
    hide FinishHeader, OnFieldStart;
  }

  lemma DiscardDispatch(p: Parser, ch: Byte)
    requires p.state.ValueDiscardLws? && !Blank(ch) && !p.headerState.HContentLength?
    ensures var o := Dispatch(FinishHeader(p).(state := HeaderFieldStart), ch);
            Dispatch(p, ch) == o.(acts := [Mark(ValueKind), Flush(ValueKind)] + o.acts)
  {
    hide FinishHeader, OnFieldStart;
    FieldStartActs(FinishHeader(p).(state := HeaderFieldStart), ch, [Mark(ValueKind), Flush(ValueKind)]);
  }

  /** The next byte, unless it continues the value. */
  lemma FinishedByte(s: Sim, ch: Byte)
    requires BehindLine(s) && !Blank(ch) && s.parser.nread < 81920
    ensures StepByte(s, ch) == StepByte(Finished(s), ch)
  {
    hide FinishHeader, Emit, PerformAll, Dispatch;
    var p := s.parser.(nread := s.parser.nread + 1);
    FinishCount(s.parser, s.parser.nread + 1);
    FinishCount(p, 0);
    if s.parser.state.ValueLws? {
      LwsDispatch(p, ch);
    } else {
      DiscardDispatch(p, ch);
      var acts := [Mark(ValueKind), Flush(ValueKind)];
      PerformConcat(s.view, acts, Dispatch(FinishHeader(p).(state := HeaderFieldStart), ch).acts, ch);
      EmptyValue(s.view, ch);
    }
  }

  lemma {:induction false} FinishedRun(s: Sim, bytes: Bytes)
    requires BehindLine(s) && bytes != [] && !Blank(bytes[0]) && s.parser.nread < 81920
    ensures Run(s, bytes) == Run(Finished(s), bytes)
  {
    hide StepByte, Run;
    var ch, rest := bytes[0], bytes[1..];
    assert bytes == [ch] + rest;
    RunConcat(s, [ch], rest);
    RunConcat(Finished(s), [ch], rest);
    RunOne(s, ch);
    RunOne(Finished(s), ch);
    FinishedByte(s, ch);
  }

  // ---------- a whole header ----------

  /** Behind a header, once it is settled. */
  ghost predicate HeaderTaken(s: Sim, h: Header, r: Sim) {
    var m, p, t := MeaningOf(h.name), s.parser, Finished(r);
    && BehindLine(r) && !Halted(t)
    && t.parser.contentLength == NewLength(m, p.contentLength, h.value)
    && t.parser == p.(headerState := t.parser.headerState, index := t.parser.index,
                      nread := p.nread + |HeaderText(h)|, flags := NewFlags(m, p.flags, h.value),
                      transferEncoding := p.transferEncoding || "transfer-encoding" <= LowerCase(h.name),
                      contentLength := t.parser.contentLength)
    && t.view == View(Emit(Emit(s.view.log, FieldKind, h.name), ValueKind, h.value), NoMark)
    && t.consumed == s.consumed + |HeaderText(h)|
  }

  /** A header has been refused, or will be at the next byte that does not continue its value. */
  predicate Refused(r: Sim) {
    r.parser.errno != OK
    || (!Halted(r) && r.parser.state.ValueDiscardLws? && r.parser.headerState.HContentLength?)
  }

  lemma RefusedByte(r: Sim, ch: Byte)
    requires Refused(r) && !Blank(ch)
    ensures StepByte(r, ch).parser.errno != OK
  {
    hide OnFieldStart, PerformAll;
  }

  lemma NoOption()
    ensures Items([]) == [[]]
    ensures !EndsChunked([]) && !HasOption([], "keep-alive") && !HasOption([], "close") && !HasOption([], "upgrade")
    ensures !IsLengthValue([])
  {
  }

  lemma NothingNew(m: Meaning, flags: Flags)
    requires !m.IsLength?
    ensures NewFlags(m, flags, []) == flags
  {
    NoOption();
    hide EndsChunked, HasOption;
  }

  /** The line behind an empty value. */
  lemma EmptyRead(s: Sim, s1: Sim, h: Header)
    requires WellHeader(h) && h.value == [] && !Halted(s) && !Halted(s1)
    requires Tells(s1.parser.headerState, MeaningOf(h.name)) && s1.parser.state.ValueDiscardLws?
    requires s1.parser == s.parser.(state := s1.parser.state, headerState := s1.parser.headerState,
                 index := s1.parser.index, nread := s.parser.nread + |HeaderText(h)|,
                 transferEncoding := s.parser.transferEncoding || "transfer-encoding" <= LowerCase(h.name))
    requires s.parser.state.HeaderFieldStart?
    requires s1.view == View(Emit(s.view.log, FieldKind, h.name), NoMark)
    requires s1.consumed == s.consumed + |HeaderText(h)|
    ensures if MeaningOf(h.name).IsLength? then !Takes(MeaningOf(h.name), s.parser.flags, h.value) && Refused(s1)
            else Takes(MeaningOf(h.name), s.parser.flags, h.value) && HeaderTaken(s, h, s1)
  {
    hide MeaningOf, HeaderText, WellHeader, Emit, IsLengthValue, LowerCase, LeadingDigits, Decimal;
    NoOption();
    hide NewFlags;
    if !MeaningOf(h.name).IsLength? {
      NothingNew(MeaningOf(h.name), s.parser.flags);
    }
  }

  /** Behind the colon and the blanks of a header. */
  predicate BeforeValue(s: Sim, h: Header, s2: Sim) {
    var n := |h.name| + 1 + |h.lead|;
    && !Halted(s2) && Tells(s2.parser.headerState, MeaningOf(h.name))
    && s2.parser == s.parser.(state := ValueDiscardWs, headerState := s2.parser.headerState, index := s2.parser.index,
          nread := s.parser.nread + n,
          transferEncoding := s.parser.transferEncoding || "transfer-encoding" <= LowerCase(h.name))
    && s2.view == View(Emit(s.view.log, FieldKind, h.name), NoMark) && s2.consumed == s.consumed + n
  }

  predicate AwaitsHeader(s: Sim) {
    !Halted(s) && s.parser.state.HeaderFieldStart? && s.view.mark.NoMark?
  }

  lemma HeadRead(s: Sim, h: Header)
    requires AwaitsHeader(s) && WellHeader(h) && s.parser.nread + |HeaderText(h)| <= 81920
    ensures BeforeValue(s, h, Run(s, h.name + [':'] + h.lead))
  {
    hide StepByte, Run, Emit, IsName, LowerCase, MeaningOf, Tells, AllBlank;
    NameRead(s, h.name);
    RunConcat(s, h.name + [':'], h.lead);
    BlankRun(Run(s, h.name + [':']), h.lead);
  }

  lemma FinishSame(p: Parser, state: State, n: nat)
    ensures FinishHeader(p.(state := state, nread := n)) == FinishHeader(p).(state := state, nread := n)
  {
  }

  lemma TakenBehind(s: Sim, h: Header, s2: Sim, s3: Sim, s4: Sim)
    requires s.parser.state.HeaderFieldStart? && BeforeValue(s, h, s2) && h.value != []
    requires Took(s2.parser, MeaningOf(h.name), h.value, s3.parser) && !Halted(s3)
    requires s4 == Sim(s3.parser.(state := ValueLws, nread := s.parser.nread + |HeaderText(h)|),
                       View(Emit(s2.view.log, ValueKind, h.value), NoMark), s.consumed + |HeaderText(h)|, false)
    ensures HeaderTaken(s, h, s4)
  {
    hide NewFlags, NewLength, Emit, FinishHeader, LowerCase, Tells, MeaningOf, HeaderText;
    FinishSame(s3.parser, ValueLws, s.parser.nread + |HeaderText(h)|);
    FinishCount(s4.parser, 0);
  }

  lemma TextLength(h: Header)
    ensures HeaderText(h) == (h.name + [':'] + h.lead) + h.value + EndOfLine(h.bare)
    ensures |HeaderText(h)| == |h.name| + 1 + |h.lead| + |h.value| + |EndOfLine(h.bare)|
  {
  }

  /**
   * A header line: the field and value callbacks receive exactly its name and its value, and the parser takes from them
   * exactly what they mean, or refuses the header.
   */
  lemma HeaderRead(s: Sim, h: Header)
    requires AwaitsHeader(s) && WellHeader(h) && s.parser.nread + |HeaderText(h)| <= 81920
    ensures var r := Run(s, HeaderText(h));
            if Takes(MeaningOf(h.name), s.parser.flags, h.value) then HeaderTaken(s, h, r) else Refused(r)
  {
    hide StepByte, Run, Emit, IsName, LowerCase, MeaningOf, Tells, AllBlank, IsText, Took, Takes, HeaderText,
      EndOfLine, HeaderTaken, NewFlags;
    var m, eol := MeaningOf(h.name), EndOfLine(h.bare);
    var head := h.name + [':'] + h.lead;
    var s2 := Run(s, head);
    TextLength(h);
    HeadRead(s, h);
    RunConcat(s, head, h.value);
    RunConcat(s, head + h.value, eol);
    if h.value == [] {
      RunNothing(s2);
      LineEnds(s2, [], h.bare);
      EmptyRead(s, Run(s2, eol), h);
    } else {
      ValueRead(s2, m, h.value);
      var s3 := Run(s2, h.value);
      if Takes(m, s.parser.flags, h.value) {
        LineEnds(s3, h.value, h.bare);
        TakenBehind(s, h, s2, s3, Run(s3, eol));
      } else {
        HaltedStays(s3, eol);
      }
    }
  }

  // ---------- a value on several lines ----------

  lemma FoldDispatch(p: Parser, c: Byte)
    requires p.state.ValueLws? && Blank(c) && IsFolded(p.headerState)
    ensures Dispatch(p, c) == Out(p.(state := HeaderValue, index := 0, headerState := HGeneral), [Mark(ValueKind)],
          false)
  {
  }

  /** The states in front of a line end that a further line of the value turns into that of an unknown header. */
  predicate IsFolded(h: HeaderState) {
    h.HGeneral? || h.TEMatchingChunked? || h.TEToken? || h.TEChunked? || h.ConnMatchingKeepAlive?
    || h.ConnMatchingClose? || h.ConnMatchingUpgrade? || h.ConnToken? || h.ConnKeepAlive? || h.ConnClose?
    || h.ConnUpgrade?
  }

  lemma FoldFirst(s: Sim, c: Byte)
    requires !Halted(s) && s.parser.state.ValueLws? && s.view.mark.NoMark? && s.parser.nread < 81920
    requires Blank(c) && IsFolded(s.parser.headerState)
    ensures StepByte(s, c) ==
            Sim(s.parser.(state := HeaderValue, index := 0, headerState := HGeneral, nread := s.parser.nread + 1),
                s.view.(mark := Open(ValueKind, [c])), s.consumed + 1, false)
  {
    hide Dispatch, StepByte, Blank, IsFolded;
    var p := s.parser.(nread := s.parser.nread + 1);
    FoldDispatch(p, c);
    assert [] + [c] == [c];
    OneActStep(s, c, p.(state := HeaderValue, index := 0, headerState := HGeneral), Mark(ValueKind));
  }

  /**
   * A line that begins with a blank continues the value: the client sees the lines of a value joined, each with its
   * blanks.  What the last word of a list would have meant is forgotten.
   */
  lemma FoldedLine(s: Sim, more: Bytes, bare: bool)
    requires !Halted(s) && s.parser.state.ValueLws? && s.view.mark.NoMark? && IsFolded(s.parser.headerState)
    requires more != [] && Blank(more[0]) && IsText(more)
    requires s.parser.nread + |more| + |EndOfLine(bare)| <= 81920
    requires s.view.log != [] && var e := s.view.log[|s.view.log| - 1]; e.Data? && e.kind.ValueKind?
    ensures var log, n := s.view.log, |more| + |EndOfLine(bare)|;
            Run(s, more + EndOfLine(bare)) ==
            Sim(s.parser.(headerState := HGeneral, index := 0, nread := s.parser.nread + n),
                View(log[..|log| - 1] + [Data(ValueKind, log[|log| - 1].bytes + more)], NoMark), s.consumed + n, false)
  {
    hide Run, StepByte, IsText, IsFolded, EndOfLine, NoLineEnd, Blank, ValueChars;
    var rest := more[1..];
    assert more == [more[0]] + rest;
    TailIsText(more);
    FoldFirst(s, more[0]);
    RunOne(s, more[0]);
    RunConcat(s, [more[0]], rest);
    PlainRun(StepByte(s, more[0]).parser, rest);
    ValueRun(StepByte(s, more[0]), rest);
    RunConcat(s, more, EndOfLine(bare));
    LineEnds(Run(s, more), more, bare);
  }
}
