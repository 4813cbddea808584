/** A parser that reports its request as done owes no message. */
module HttpDone {
  import opened HttpTypes
  import opened HttpUrlChar
  import opened HttpStep
  import opened HttpRun
  import opened HttpFragment

  /** One while a request is being read. */
  function Owed(s: State): int {
    if s.Dead? || s.StartReq? then 0 else 1
  }

  function Weight(a: Act): int {
    match a
    case Tell(MessageBegin) => 1
    case Tell(MessageComplete) => -1
    case _ => 0
  }

  function Net(acts: seq<Act>): int
    decreases |acts|
  {
    if acts == [] then 0 else Weight(acts[0]) + Net(acts[1..])
  }

  lemma {:induction false} NetConcat(a: seq<Act>, b: seq<Act>)
    ensures Net(a + b) == Net(a) + Net(b)
    decreases |a|
  {
    if a == [] {
      assert a + b == b;
    } else {
      assert (a + b)[1..] == a[1..] + b;
      NetConcat(a[1..], b);
    }
  }

  lemma NetOne(acts: seq<Act>, a: Act)
    ensures Net(acts + [a]) == Net(acts) + Weight(a)
  {
    NetConcat(acts, [a]);
    assert Net([a]) == Weight(a) + Net([a][1..]);
  }

  /** A branch that ends well begins or completes a message exactly when it leaves or reaches a resting state. */
  predicate Balanced(o: Out, owed: int) {
    o.parser.errno == OK ==> Owed(o.parser.state) == owed + Net(o.acts)
  }

  lemma HeadersDoneBalanced(p: Parser, ch: Byte, acts: seq<Act>)
    requires p.errno == OK && Net(acts) == 0
    ensures Balanced(OnHeadersDone(p, ch, acts), 1)
  {
    NetOne(acts, Tell(MessageComplete));
    hide Net;
  }

  lemma HeadersAlmostDoneBalanced(p: Parser, ch: Byte, acts: seq<Act>)
    requires p.errno == OK && Net(acts) == 0
    ensures Balanced(OnHeadersAlmostDone(p, ch, acts), 1)
  {
    hide Net, OnHeadersDone;
    NetOne(acts, Tell(ChunkComplete));
    NetOne(acts + [Tell(ChunkComplete)], Tell(MessageComplete));
    NetOne(acts, Tell(HeadersComplete));
    var up := (p.flags.upgrade && p.flags.connUpgrade) || p.verb.CONNECT?;
    HeadersDoneBalanced(p.(state := HeadersDone, upgrade := up), ch, acts + [Tell(HeadersComplete)]);
  }

  lemma FieldStartBalanced(p: Parser, ch: Byte, acts: seq<Act>)
    requires p.errno == OK && Net(acts) == 0
    ensures Balanced(OnFieldStart(p, ch, acts), 1)
  {
    hide Net, OnHeadersAlmostDone, Token;
    NetOne(acts, Mark(FieldKind));
    HeadersAlmostDoneBalanced(p.(state := HeadersAlmostDone), ch, acts);
  }

  lemma Weightless()
    ensures Net([]) == 0
    ensures forall k :: Net([Mark(k)]) == 0 && Net([Flush(k)]) == 0
    ensures Net([Tell(MessageBegin)]) == 1 && Net([Tell(ChunkHeader)]) == 0 && Net([Tell(ChunkComplete)]) == 0
        && Net([Tell(MessageComplete)]) == -1
    ensures Net([Mark(ValueKind), Flush(ValueKind)]) == 0 && Net([Mark(BodyKind), FlushThrough(BodyKind)]) == 0
  {
    forall a: Act ensures Net([a]) == Weight(a) {
      NetOne([], a);
      assert [] + [a] == [a];
    }
    NetOne([Mark(ValueKind)], Flush(ValueKind));
    NetOne([Mark(BodyKind)], FlushThrough(BodyKind));
    assert [Mark(ValueKind)] + [Flush(ValueKind)] == [Mark(ValueKind), Flush(ValueKind)];
    assert [Mark(BodyKind)] + [FlushThrough(BodyKind)] == [Mark(BodyKind), FlushThrough(BodyKind)];
  }

  lemma ValueStartBalanced(p: Parser, ch: Byte)
    requires p.errno == OK
    ensures Balanced(OnValueStart(p, ch), 1)
  {
    Weightless();
    hide Net, Lower;
  }

  lemma HeadersBalanced(p: Parser, ch: Byte)
    requires p.errno == OK
    requires p.state in {HeadersAlmostDone, HeadersDone, HeaderFieldStart, ValueLws, ValueDiscardLws, ValueDiscardWs,
          ValueStart, MessageDone}
    ensures Balanced(Dispatch(p, ch), 1)
  {
    Weightless();
    hide Net, OnHeadersAlmostDone, OnHeadersDone, OnFieldStart, OnValueStart;
    match p.state
    case MessageDone =>
      assert [] + [Tell(MessageComplete)] == [Tell(MessageComplete)];
    case HeadersDone => HeadersDoneBalanced(p, ch, []);
    case HeadersAlmostDone => HeadersAlmostDoneBalanced(p, ch, []);
    case HeaderFieldStart => FieldStartBalanced(p, ch, []);
    case ValueLws =>
      FieldStartBalanced(FinishHeader(p).(state := HeaderFieldStart), ch, []);
      var h := if p.headerState.HContentLengthNum? then HContentLengthWs else p.headerState;
      ValueStartBalanced(p.(headerState := h, state := ValueStart), ch);
    case ValueDiscardLws =>
      FieldStartBalanced(FinishHeader(p).(state := HeaderFieldStart), ch, [Mark(ValueKind), Flush(ValueKind)]);
    case _ => ValueStartBalanced(p, ch);
  }

  lemma ScanBalanced(p: Parser, ch: Byte)
    requires p.errno == OK && (p.state.HeaderField? || p.state.HeaderValue?)
    ensures Balanced(Dispatch(p, ch), 1)
  {
    Weightless();
    hide Net, FieldChar, ValueChar, Token;
    FieldCharState(p, ch);
    ValueCharState(p, ch);
  }

  lemma UrlBalanced(p: Parser, ch: Byte)
    requires p.errno == OK && (InUrl(p.state) || p.state.SpacesBeforeUrl?)
    ensures Balanced(Dispatch(p, ch), 1)
  {
    Weightless();
    hide Net, ParseUrlChar;
    UrlStatesClosed(p.state, ch);
    UrlStatesClosed(ServerStart, ch);
  }

  lemma BodyBalanced(p: Parser, ch: Byte)
    requires p.errno == OK
    requires p.state in {BodyIdentity, ChunkData, ChunkDataAlmostDone, ChunkDataDone, ChunkSizeStart, ChunkSize,
          ChunkParameters, ChunkSizeAlmostDone}
    ensures Balanced(Dispatch(p, ch), 1)
  {
    Weightless();
    NetOne([Mark(BodyKind), FlushThrough(BodyKind)], Tell(MessageComplete));
    hide Net, Unhex, ShouldKeepAlive;
  }

  lemma MethodBalanced(p: Parser, ch: Byte)
    requires p.errno == OK && (p.state.Dead? || p.state.StartReq? || p.state.ReqMethod?)
    ensures Balanced(Dispatch(p, ch), Owed(p.state))
  {
    hide Net, MethodString, Retarget, StartsMethod, FirstGuess, IsAlpha;
    Weightless();
  }

  /** In the rest of the request line, and at the ends of lines, nothing is told. */
  lemma VersionBalanced(p: Parser, ch: Byte)
    requires p.errno == OK
    requires p.state.HttpStart? || p.state.HttpH? || p.state.HttpHT? || p.state.HttpHTT? || p.state.HttpHTTP?
          || p.state.HttpI? || p.state.HttpIC?
    ensures Balanced(Dispatch(p, ch), 1)
  {
    hide Net;
    Weightless();
  }

  lemma LineBalanced(p: Parser, ch: Byte)
    requires p.errno == OK
    requires p.state.HttpMajor? || p.state.HttpDot? || p.state.HttpMinor? || p.state.HttpEnd?
          || p.state.LineAlmostDone? || p.state.ValueDiscardWsAlmostDone? || p.state.HeaderAlmostDone?
    ensures Balanced(Dispatch(p, ch), 1)
  {
    hide Net;
    Weightless();
  }

  lemma DispatchBalanced(p: Parser, ch: Byte)
    requires p.errno == OK
    ensures Balanced(Dispatch(p, ch), Owed(p.state))
  {
    hide Net, Dispatch, Balanced;
    match p.state
    case HeadersAlmostDone | HeadersDone | HeaderFieldStart | ValueLws | ValueDiscardLws | ValueDiscardWs | ValueStart
       | MessageDone => HeadersBalanced(p, ch);
    case BodyIdentity | ChunkData | ChunkDataAlmostDone | ChunkDataDone | ChunkSizeStart | ChunkSize | ChunkParameters
       | ChunkSizeAlmostDone => BodyBalanced(p, ch);
    case HeaderField | HeaderValue => ScanBalanced(p, ch);
    case SpacesBeforeUrl | Schema | SchemaSlash | SchemaSlashSlash | ServerStart | Server | ServerWithAt
       | UrlPath | QueryStart | Query | FragmentStart | Fragment => UrlBalanced(p, ch);
    case Dead | StartReq | ReqMethod => MethodBalanced(p, ch);
    case HttpStart | HttpH | HttpHT | HttpHTT | HttpHTTP | HttpI | HttpIC => VersionBalanced(p, ch);
    case _ => LineBalanced(p, ch);
  }

  // ---------- the log ----------

  /** Messages begun less messages completed. */
  function Pending(log: Log): int
    decreases |log|
  {
    if log == [] then 0
    else
      Pending(log[..|log| - 1]) + (if log[|log| - 1] == Note(MessageBegin) then 1
            else if log[|log| - 1] == Note(MessageComplete) then -1 else 0)
  }

  lemma PendingEmit(log: Log, k: Kind, piece: Bytes)
    ensures Pending(Emit(log, k, piece)) == Pending(log)
  {
    var e := Emit(log, k, piece);
    if |e| == |log| {
      assert e[..|e| - 1] == log[..|log| - 1];
    } else {
      assert e[..|e| - 1] == log;
    }
  }

  lemma PendingPerform(v: View, a: Act, ch: Byte)
    ensures Pending(Perform(v, a, ch).log) == Pending(v.log) + Weight(a)
  {
    match a
    case Mark(_) =>
    case Flush(k) => if v.mark.Open? { PendingEmit(v.log, k, v.mark.run); }
    case FlushThrough(k) => if v.mark.Open? { PendingEmit(v.log, k, v.mark.run + [ch]); }
    case Tell(n) => assert (v.log + [Note(n)])[..|v.log|] == v.log;
  }

  lemma {:induction false} PendingPerformAll(v: View, acts: seq<Act>, ch: Byte)
    ensures Pending(PerformAll(v, acts, ch).log) == Pending(v.log) + Net(acts)
    decreases |acts|
  {
    hide Pending, Perform;
    if acts != [] {
      PendingPerform(v, acts[0], ch);
      PendingPerformAll(Perform(v, acts[0], ch), acts[1..], ch);
    }
  }

  /**
   * Over every run of a new parser without an error, the request is done exactly when every message begun has been
   * completed; while it is not done, exactly one message is begun and not completed.
   */
  lemma {:induction false} DoneOwesNothing(bytes: Bytes)
    ensures var s := Run(Enter(INITIAL, []), bytes);
            s.parser.errno == OK ==>
              && (RequestIsDone(s.parser) <==> Pending(s.view.log) == 0)
              && (!RequestIsDone(s.parser) <==> Pending(s.view.log) == 1)
    decreases |bytes|
  {
    hide Dispatch, Pending, PerformAll, Net;
    if bytes == [] {
      NothingPending();
    } else {
      var n := |bytes| - 1;
      DoneOwesNothing(bytes[..n]);
      var s := Run(Enter(INITIAL, []), bytes[..n]);
      var p := Count(s.parser);
      if !Halted(s) && p.errno == OK {
        DispatchBalanced(p, bytes[n]);
        PendingPerformAll(s.view, Dispatch(p, bytes[n]).acts, bytes[n]);
      }
    }
  }

  lemma NothingPending()
    ensures Pending([]) == 0
  {
  }
}
