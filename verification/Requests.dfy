/** The bytes of one client: how its parser takes them, and when they are a complete request. */
module Requests {
  import F = Framing
  import opened HttpTypes
  import opened HttpUrlChar
  import opened HttpStep
  import opened HttpRun
  import opened HttpAsserts

  /** The bytes of a connection as the parser sees them. */
  function Text(s: F.Stream): (t: Bytes)
    ensures |t| == |s|
  {
    seq(|s|, i requires 0 <= i < |s| => s[i] as int as char)
  }

  lemma TextConcat(a: F.Stream, b: F.Stream)
    ensures Text(a + b) == Text(a) + Text(b)
  {
  }

  /** What the bytes of one read do: the parser after them, how many it took, and whether it failed or is done. */
  datatype Outcome = Outcome(parser: Parser, taken: nat, failed: bool, done: bool)

  function Read(p: Parser, bytes: F.Stream): (o: Outcome)
    requires p.errno == OK && bytes != []
    ensures o.taken <= |bytes|
  {
    RunConsumes(Enter(p, []), Text(bytes));
    var r := Call(p, [], Text(bytes));
    Outcome(r.parser, r.consumed, r.parser.errno != OK, RequestIsDone(r.parser))
  }

  /** The run of a new parser over the bytes of a connection. */
  function RunOf(buf: F.Stream): Sim {
    Run(Enter(INITIAL, []), Text(buf))
  }

  /** The parser of a connection that has sent `buf` and is still sending. */
  ghost predicate Reading(p: Parser, buf: F.Stream) {
    !Halted(RunOf(buf)) && RunOf(buf).parser == p
  }

  /** The bytes on which a new parser is done, to the last of them. */
  ghost predicate IsRequest(buf: F.Stream) {
    var s := RunOf(buf);
    buf != [] && s.parser.errno == OK && RequestIsDone(s.parser) && s.consumed == |buf|
  }

  lemma NothingRead()
    ensures Reading(INITIAL, [])
  {
    assert Text([]) == [];
  }

  lemma ReadingSane(p: Parser, buf: F.Stream)
    requires Reading(p, buf)
    ensures p.errno == OK && Sane(p)
  {
    hide Sane, Run;
    InitialSane();
    SaneAlways(Enter(INITIAL, []), Text(buf));
  }

  // ---------- the parser alone ----------

  /** What a run does to the parser does not depend on what the client has received. */
  lemma {:induction false} SameParser(s: Sim, t: Sim, bytes: Bytes)
    requires s.parser == t.parser && s.stop == t.stop
    ensures var a, b := Run(s, bytes), Run(t, bytes);
            a.parser == b.parser && a.stop == b.stop && a.consumed - s.consumed == b.consumed - t.consumed
    decreases |bytes|
  {
    hide Dispatch, PerformAll;
    if bytes != [] {
      SameParser(s, t, bytes[..|bytes| - 1]);
    }
  }

  /** Only a parser that is done returns early. */
  predicate StopsWhenDone(o: Out) {
    o.stop ==> RequestIsDone(o.parser)
  }

  lemma HeadersStop(p: Parser, ch: Byte, acts: seq<Act>)
    ensures StopsWhenDone(OnHeadersDone(p, ch, acts)) && StopsWhenDone(OnMessageDone(p, acts))
    ensures StopsWhenDone(OnHeadersAlmostDone(p, ch, acts)) && StopsWhenDone(OnFieldStart(p, ch, acts))
  {
    hide Token, FirstFieldState, ShouldKeepAlive;
  }

  lemma LineGoesOn(p: Parser, ch: Byte)
    ensures InRequestLine(p.state) ==> !Dispatch(p, ch).stop
  {
    hide ParseUrlChar, Retarget, MethodString, StartsMethod, FirstGuess, IsAlpha, IsNum;
  }

  lemma StopsDone(p: Parser, ch: Byte)
    requires p.errno == OK
    ensures StopsWhenDone(Dispatch(p, ch))
  {
    hide OnReqMethod, OnUrlChar, OnHttpStart, FieldChar, ValueChar, Token, Unhex, FinishHeader, Lower, OnFieldStart,
      OnHeadersAlmostDone, OnHeadersDone, OnMessageDone, StartsMethod, FirstGuess, IsAlpha, IsNum;
    LineGoesOn(p, ch);
    HeadersStop(p, ch, []);
    HeadersStop(FinishHeader(p).(state := HeaderFieldStart), ch, []);
    HeadersStop(FinishHeader(p).(state := HeaderFieldStart), ch, [Mark(ValueKind), Flush(ValueKind)]);
    var left := p.(contentLength := if p.contentLength == 0 then 0 else p.contentLength - 1, state := MessageDone);
    HeadersStop(left, ch, [Mark(BodyKind), FlushThrough(BodyKind)]);
  }

  lemma {:induction false} StoppedDone(s: Sim, bytes: Bytes)
    requires !s.stop
    ensures var r := Run(s, bytes); r.stop ==> RequestIsDone(r.parser)
    decreases |bytes|
  {
    hide Dispatch, PerformAll;
    if bytes != [] {
      var n := |bytes| - 1;
      StoppedDone(s, bytes[..n]);
      var t := Run(s, bytes[..n]);
      if !Halted(t) {
        if Count(t.parser).errno == OK {
          StopsDone(Count(t.parser), bytes[n]);
        }
      }
    }
  }

  /** A run that ends well is the run over the bytes that it consumes. */
  lemma {:induction false} RunTaken(s: Sim, bytes: Bytes)
    requires Run(s, bytes).parser.errno == OK
    ensures var n := Run(s, bytes).consumed - s.consumed;
            0 <= n <= |bytes| && Run(s, bytes[..n]) == Run(s, bytes)
    decreases |bytes|
  {
    hide StepByte;
    RunConsumes(s, bytes);
    if bytes != [] {
      var n := |bytes| - 1;
      var t := Run(s, bytes[..n]);
      if Halted(t) {
        HaltedByte(t, bytes[n]);
        RunTaken(s, bytes[..n]);
        assert bytes[..n][..t.consumed - s.consumed] == bytes[..t.consumed - s.consumed];
      } else {
        RunConsumes(s, bytes[..n]);
        OneTaken(t, bytes[n]);
        assert bytes[..|bytes|] == bytes;
      }
    }
  }

  lemma OneTaken(s: Sim, ch: Byte)
    requires !Halted(s)
    ensures StepByte(s, ch).parser.errno == OK ==> StepByte(s, ch).consumed == s.consumed + 1
  {
    hide Dispatch, PerformAll;
  }

  lemma ReadIs(p: Parser, bytes: F.Stream)
    requires p.errno == OK && bytes != []
    ensures var o, r := Read(p, bytes), Run(Enter(p, []), Text(bytes));
            && o.parser == r.parser && o.taken == r.consumed && (o.failed <==> r.parser.errno != OK)
            && (o.done <==> RequestIsDone(r.parser))
  {
    hide Run;
  }

  lemma TextPrefix(s: F.Stream, n: nat)
    requires n <= |s|
    ensures Text(s[..n]) == Text(s)[..n]
  {
  }

  /** More bytes of a request: it goes on, or is complete with the bytes that the parser took. */
  lemma ReadOn(p: Parser, buf: F.Stream, bytes: F.Stream)
    requires Reading(p, buf) && p.errno == OK && bytes != []
    ensures var o := Read(p, bytes);
            var all := buf + bytes[..o.taken];
            && (!o.failed && !o.done ==> Reading(o.parser, all))
            && (!o.failed && o.done ==> IsRequest(all))
  {
    hide StepByte, Run, Read, Text;
    var s, t := RunOf(buf), Enter(p, []);
    var o := Read(p, bytes);
    ReadIs(p, bytes);
    if !o.failed {
      RunTaken(t, Text(bytes));
      var some := bytes[..o.taken];
      TextPrefix(bytes, o.taken);
      TextConcat(buf, some);
      RunConcat(Enter(INITIAL, []), Text(buf), Text(some));
      SameParser(s, t, Text(some));
      RunConsumes(Enter(INITIAL, []), Text(buf));
      StoppedDone(t, Text(bytes));
      TakesOne(t, Text(bytes));
    }
  }

  /** What a read makes of the parser is what a new parser makes of all that was sent. */
  lemma ReadExact(p: Parser, buf: F.Stream, bytes: F.Stream)
    requires Reading(p, buf) && p.errno == OK && bytes != []
    ensures var s, o := RunOf(buf + bytes), Read(p, bytes);
            && (o.failed <==> s.parser.errno != OK) && (o.done <==> RequestIsDone(s.parser))
            && o.parser == s.parser && |buf| + o.taken == s.consumed
            && (!o.failed && !o.done ==> o.taken == |bytes|)
  {
    hide StepByte, Run, Read, Text;
    var t := Enter(p, []);
    ReadIs(p, bytes);
    TextConcat(buf, bytes);
    RunConcat(Enter(INITIAL, []), Text(buf), Text(bytes));
    SameParser(RunOf(buf), t, Text(bytes));
    RunConsumes(Enter(INITIAL, []), Text(buf));
    RunConsumes(t, Text(bytes));
    StoppedDone(t, Text(bytes));
  }

  lemma TakesOne(s: Sim, bytes: Bytes)
    requires !Halted(s) && bytes != [] && Run(s, bytes).parser.errno == OK
    ensures Run(s, bytes).consumed > s.consumed
  {
    hide StepByte;
    var first := bytes[..1];
    assert first == [bytes[0]] && bytes == first + bytes[1..];
    RunConcat(s, first, bytes[1..]);
    RunOne(s, bytes[0]);
    OneTaken(s, bytes[0]);
    RunConsumes(Run(s, first), bytes[1..]);
    if Run(s, first).parser.errno != OK {
      HaltedStays(Run(s, first), bytes[1..]);
    }
  }
}
