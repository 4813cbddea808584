/** Cutting a stream into pieces does not change what the parser does with it. */
module HttpFragment {
  import opened HttpTypes
  import opened HttpUrlChar
  import opened HttpStep
  import opened HttpRun

  // ---------- the marks of each state ----------

  /** Which run may be open: none, one of a kind, or perhaps one of the body. */
  datatype Status = Shut | Opened(kind: Kind) | PerhapsBody

  function StatusOf(s: State): Status {
    match s
    case HeaderField => Opened(FieldKind)
    case HeaderValue => Opened(ValueKind)
    case Schema | SchemaSlash | SchemaSlashSlash | ServerStart | Server | ServerWithAt
       | UrlPath | QueryStart | Query | FragmentStart | Fragment => Opened(UrlKind)
    case ChunkData | ChunkDataAlmostDone | BodyIdentity => PerhapsBody
    case _ => Shut
  }

  predicate Fits(st: Status, m: Mark) {
    match st
    case Shut => m.NoMark?
    case Opened(k) => m.Open? && m.kind == k
    case PerhapsBody => m.Open? ==> m.kind.BodyKind?
  }

  /** How an act changes the status; an act that would open a second run, or speak over an open one, has no result. */
  function After(st: Status, a: Act): Option<Status> {
    match a
    case Mark(k) =>
      if st.Shut? || st == Opened(k) || (st.PerhapsBody? && k.BodyKind?) then Some(Opened(k)) else None
    case Flush(k) =>
      if st == Opened(k) || (st.PerhapsBody? && k.BodyKind?) then Some(Shut) else None
    case FlushThrough(k) => if st == Opened(k) then Some(Shut) else None
    case Tell(_) => if st.Shut? then Some(Shut) else None
  }

  function AfterAll(st: Status, acts: seq<Act>): Option<Status>
    decreases |acts|
  {
    if acts == [] then Some(st)
    else
      match After(st, acts[0])
      case None => None
      case Some(st') => AfterAll(st', acts[1..])
  }

  lemma {:induction false} AfterConcat(st: Status, a: seq<Act>, b: seq<Act>)
    requires AfterAll(st, a).Some?
    ensures AfterAll(st, a + b) == AfterAll(AfterAll(st, a).value, b)
    decreases |a|
  {
    if a == [] {
      assert a + b == b;
    } else {
      assert (a + b)[1..] == a[1..] + b;
      AfterConcat(After(st, a[0]).value, a[1..], b);
    }
  }

  lemma AfterOne(st: Status, acts: seq<Act>, a: Act)
    requires AfterAll(st, acts) == Some(Shut)
    ensures AfterAll(st, acts + [a]) == After(Shut, a)
  {
    AfterConcat(st, acts, [a]);
    assert AfterAll(Shut, [a]) == After(Shut, a);
  }

  /** A branch that ends well leaves the status of its new state; only an error may leave a run unfinished. */
  predicate Tidy(o: Out, st: Status) {
    var e := AfterAll(st, o.acts);
    && e.Some?
    && (o.parser.errno == OK ==> Settled(e.value, o.parser.state) && (o.stop ==> e.value.Shut?))
  }

  predicate Settled(e: Status, s: State) {
    var want := StatusOf(s);
    if want.PerhapsBody? then e.Shut? || e == Opened(BodyKind) else e == want
  }

  lemma MessageDoneTidy(p: Parser, st: Status, acts: seq<Act>)
    requires AfterAll(st, acts) == Some(Shut)
    ensures Tidy(OnMessageDone(p, acts), st)
  {
    AfterOne(st, acts, Tell(MessageComplete));
  }

  lemma HeadersDoneTidy(p: Parser, ch: Byte, st: Status, acts: seq<Act>)
    requires AfterAll(st, acts) == Some(Shut)
    ensures Tidy(OnHeadersDone(p, ch, acts), st)
  {
    AfterOne(st, acts, Tell(MessageComplete));
    hide AfterAll;
  }

  lemma HeadersAlmostDoneTidy(p: Parser, ch: Byte, st: Status, acts: seq<Act>)
    requires AfterAll(st, acts) == Some(Shut)
    ensures Tidy(OnHeadersAlmostDone(p, ch, acts), st)
  {
    hide AfterAll, OnHeadersDone, OnMessageDone;
    AfterOne(st, acts, Tell(ChunkComplete));
    AfterOne(st, acts, Tell(HeadersComplete));
    MessageDoneTidy(p.(state := MessageDone), st, acts + [Tell(ChunkComplete)]);
    var up := (p.flags.upgrade && p.flags.connUpgrade) || p.verb.CONNECT?;
    HeadersDoneTidy(p.(state := HeadersDone, upgrade := up), ch, st, acts + [Tell(HeadersComplete)]);
  }

  lemma FieldStartTidy(p: Parser, ch: Byte, st: Status, acts: seq<Act>)
    requires p.errno == OK && AfterAll(st, acts) == Some(Shut)
    ensures Tidy(OnFieldStart(p, ch, acts), st)
  {
    hide AfterAll, OnHeadersAlmostDone, Token;
    AfterOne(st, acts, Mark(FieldKind));
    HeadersAlmostDoneTidy(p.(state := HeadersAlmostDone), ch, st, acts);
  }

  lemma ValueStartTidy(p: Parser, ch: Byte)
    requires p.errno == OK
    ensures Tidy(OnValueStart(p, ch), Shut)
  {
    assert AfterAll(Shut, [Mark(ValueKind)]) == Some(Opened(ValueKind));
    hide AfterAll, Lower;
  }

  lemma UrlTidy(p: Parser, ch: Byte)
    requires p.errno == OK && (InUrl(p.state) || p.state.SpacesBeforeUrl?)
    ensures Tidy(Dispatch(p, ch), StatusOf(p.state))
  {
    hide AfterAll, ParseUrlChar;
    UrlStatesClosed(p.state, ch);
    UrlStatesClosed(ServerStart, ch);
    NothingTold();
    RunActs(UrlKind);
    UrlMark();
  }

  lemma UrlMark()
    ensures AfterAll(Shut, [Mark(UrlKind)]) == Some(Opened(UrlKind))
  {
  }

  lemma EmptyValueActs()
    ensures AfterAll(Shut, []) == Some(Shut)
    ensures AfterAll(Shut, [Mark(ValueKind), Flush(ValueKind)]) == Some(Shut)
  {
    AfterConcat(Shut, [Mark(ValueKind)], [Flush(ValueKind)]);
    assert [Mark(ValueKind)] + [Flush(ValueKind)] == [Mark(ValueKind), Flush(ValueKind)];
  }

  lemma HeadersTidy(p: Parser, ch: Byte)
    requires p.errno == OK
    requires p.state in {HeadersAlmostDone, HeadersDone, HeaderFieldStart, ValueLws, ValueDiscardLws, ValueDiscardWs,
          ValueStart, MessageDone}
    ensures Tidy(Dispatch(p, ch), StatusOf(p.state))
  {
    hide AfterAll, OnHeadersAlmostDone, OnHeadersDone, OnMessageDone, OnFieldStart, OnValueStart;
    EmptyValueActs();
    match p.state
    case MessageDone => MessageDoneTidy(p, Shut, []);
    case HeadersDone => HeadersDoneTidy(p, ch, Shut, []);
    case HeadersAlmostDone => HeadersAlmostDoneTidy(p, ch, Shut, []);
    case HeaderFieldStart => FieldStartTidy(p, ch, Shut, []);
    case ValueLws =>
      FieldStartTidy(FinishHeader(p).(state := HeaderFieldStart), ch, Shut, []);
      var h := if p.headerState.HContentLengthNum? then HContentLengthWs else p.headerState;
      ValueStartTidy(p.(headerState := h, state := ValueStart), ch);
    case ValueDiscardLws =>
      FieldStartTidy(FinishHeader(p).(state := HeaderFieldStart), ch, Shut, [Mark(ValueKind), Flush(ValueKind)]);
    case _ =>
      ValueStartTidy(p, ch);
  }

  lemma ChunkHeaderTidy(p: Parser, ch: Byte)
    requires p.errno == OK
    requires p.state.ChunkDataDone? || p.state.ChunkSizeStart? || p.state.ChunkSize? || p.state.ChunkParameters?
          || p.state.ChunkSizeAlmostDone?
    ensures Tidy(Dispatch(p, ch), Shut)
  {
    hide AfterAll, Unhex;
    NothingTold();
  }

  lemma BodyTidy(p: Parser, ch: Byte)
    requires p.errno == OK
    requires p.state in {BodyIdentity, ChunkData, ChunkDataAlmostDone}
    ensures Tidy(Dispatch(p, ch), PerhapsBody)
  {
    BodyActs();
    hide AfterAll, OnMessageDone;
    if p.state.BodyIdentity? {
      var left := if p.contentLength == 0 then 0 else p.contentLength - 1;
      MessageDoneTidy(p.(contentLength := left, state := MessageDone), PerhapsBody,
            [Mark(BodyKind), FlushThrough(BodyKind)]);
    }
  }

  lemma BodyActs()
    ensures AfterAll(PerhapsBody, [Mark(BodyKind)]) == Some(Opened(BodyKind))
    ensures AfterAll(PerhapsBody, [Flush(BodyKind)]) == Some(Shut)
    ensures AfterAll(PerhapsBody, []) == Some(PerhapsBody)
    ensures AfterAll(PerhapsBody, [Mark(BodyKind), FlushThrough(BodyKind)]) == Some(Shut)
  {
    AfterConcat(PerhapsBody, [Mark(BodyKind)], [FlushThrough(BodyKind)]);
    assert [Mark(BodyKind)] + [FlushThrough(BodyKind)] == [Mark(BodyKind), FlushThrough(BodyKind)];
    assert AfterAll(Opened(BodyKind), [FlushThrough(BodyKind)]) == Some(Shut);
  }

  /** A run that goes on, or is handed over. */
  lemma RunActs(k: Kind)
    ensures AfterAll(Opened(k), []) == Some(Opened(k)) && AfterAll(Opened(k), [Flush(k)]) == Some(Shut)
  {
  }

  lemma FieldTidy(p: Parser, ch: Byte)
    requires p.errno == OK && p.state.HeaderField?
    ensures Tidy(Dispatch(p, ch), StatusOf(p.state))
  {
    hide AfterAll, FieldChar, Token;
    RunActs(FieldKind);
    FieldCharState(p, ch);
  }

  lemma ValueTidy(p: Parser, ch: Byte)
    requires p.errno == OK && p.state.HeaderValue?
    ensures Tidy(Dispatch(p, ch), StatusOf(p.state))
  {
    hide AfterAll, ValueChar;
    RunActs(ValueKind);
    ValueCharState(p, ch);
  }

  lemma FieldCharState(p: Parser, ch: Byte)
    ensures var q := FieldChar(p, ch); q.state == p.state && q.errno == p.errno
  {
  }

  lemma ValueCharState(p: Parser, ch: Byte)
    ensures ValueChar(p, ch).state == p.state
  {
    hide MatchWord, Lower, Token, IsHeaderChar;
    MatchWordState(p, CHUNKED, Lower(ch), TEChunked, TEToken);
    MatchWordState(p, KEEP_ALIVE, Lower(ch), ConnKeepAlive, ConnToken);
    MatchWordState(p, CLOSE, Lower(ch), ConnClose, ConnToken);
    MatchWordState(p, UPGRADE, Lower(ch), ConnUpgrade, ConnToken);
  }

  lemma MatchWordState(p: Parser, word: Bytes, c: Byte, whole: HeaderState, miss: HeaderState)
    ensures MatchWord(p, word, c, whole, miss).state == p.state
  {
  }

  lemma NothingTold()
    ensures AfterAll(Shut, []) == Some(Shut) && AfterAll(Shut, [Tell(MessageBegin)]) == Some(Shut)
    ensures AfterAll(Shut, [Tell(ChunkHeader)]) == Some(Shut) && AfterAll(Shut, [Tell(ChunkComplete)]) == Some(Shut)
  {
  }

  lemma MethodTidy(p: Parser, ch: Byte)
    requires p.errno == OK && (p.state.Dead? || p.state.StartReq? || p.state.ReqMethod?)
    ensures Tidy(Dispatch(p, ch), Shut)
  {
    hide AfterAll, MethodString, Retarget, StartsMethod, FirstGuess, IsAlpha;
    NothingTold();
  }

  lemma VersionTidy(p: Parser, ch: Byte)
    requires p.errno == OK
    requires p.state.HttpStart? || p.state.HttpH? || p.state.HttpHT? || p.state.HttpHTT? || p.state.HttpHTTP?
          || p.state.HttpI? || p.state.HttpIC?
    ensures Tidy(Dispatch(p, ch), Shut)
  {
    hide AfterAll;
    NothingTold();
  }

  lemma LineTidy(p: Parser, ch: Byte)
    requires p.errno == OK
    requires p.state.HttpMajor? || p.state.HttpDot? || p.state.HttpMinor? || p.state.HttpEnd?
          || p.state.LineAlmostDone? || p.state.ValueDiscardWsAlmostDone? || p.state.HeaderAlmostDone?
    ensures Tidy(Dispatch(p, ch), Shut)
  {
    hide AfterAll;
    NothingTold();
  }

  lemma DispatchTidy(p: Parser, ch: Byte)
    requires p.errno == OK
    ensures Tidy(Dispatch(p, ch), StatusOf(p.state))
  {
    hide AfterAll, Dispatch, Tidy;
    match p.state
    case HeadersAlmostDone | HeadersDone | HeaderFieldStart | ValueLws | ValueDiscardLws | ValueDiscardWs | ValueStart
       | MessageDone => HeadersTidy(p, ch);
    case BodyIdentity | ChunkData | ChunkDataAlmostDone => BodyTidy(p, ch);
    case ChunkDataDone | ChunkSizeStart | ChunkSize | ChunkParameters | ChunkSizeAlmostDone => ChunkHeaderTidy(p, ch);
    case HeaderField => FieldTidy(p, ch);
    case HeaderValue => ValueTidy(p, ch);
    case SpacesBeforeUrl | Schema | SchemaSlash | SchemaSlashSlash | ServerStart | Server | ServerWithAt
       | UrlPath | QueryStart | Query | FragmentStart | Fragment => UrlTidy(p, ch);
    case Dead | StartReq | ReqMethod => MethodTidy(p, ch);
    case HttpStart | HttpH | HttpHT | HttpHTT | HttpHTTP | HttpI | HttpIC => VersionTidy(p, ch);
    case _ => LineTidy(p, ch);
  }

  // ---------- one call against many ----------

  /** What of a run lies before its last `c` bytes. */
  function Early(run: Bytes, c: nat): Bytes
    requires c <= |run|
  {
    run[..|run| - c]
  }

  /**
   * The run of `v` began before the current piece, of which `c` bytes are consumed; `w` has handed over that beginning.
   */
  predicate Older(v: View, w: View, c: nat) {
    && v.mark.Open?
    && |v.mark.run| > c
    && w.log == Emit(v.log, v.mark.kind, Early(v.mark.run, c))
    && (w.mark.Open? ==> w.mark.kind == v.mark.kind && w.mark.run == v.mark.run[|v.mark.run| - c..])
    && (w.mark.NoMark? ==> v.mark.kind.BodyKind? && c == 0)
  }

  /** The views of the whole stream and of its pieces, `c` bytes into the current piece. */
  predicate Joined(v: View, w: View, c: nat) {
    (v == w && (v.mark.Open? ==> |v.mark.run| <= c)) || Older(v, w, c)
  }

  lemma MarkJoined(v: View, w: View, c: nat, k: Kind)
    requires Older(v, w, c) && (v.mark.kind == k)
    ensures var w' := if w.mark.NoMark? then w.(mark := Open(k, [])) else w;
            Older(v, w', c)
  {
    hide Emit;
    assert v.mark.run[|v.mark.run| - 0..] == [];
  }

  lemma FlushJoined(v: View, w: View, c: nat, more: Bytes)
    requires Older(v, w, c) && (w.mark.Open? || more == [])
    ensures var w' := if w.mark.Open? then Emit(w.log, w.mark.kind, w.mark.run + more) else w.log;
            Emit(v.log, v.mark.kind, v.mark.run + more) == w'
  {
    hide Emit;
    var k, run := v.mark.kind, v.mark.run;
    var x, y := Early(run, c), run[|run| - c..];
    assert x + y == run;
    assert x + (y + more) == run + more;
    if w.mark.Open? {
      EmitTwice(v.log, k, x, y + more);
    } else {
      assert x == run && run + more == run;
    }
  }

  lemma ActJoined(v: View, w: View, c: nat, st: Status, a: Act, ch: Byte)
    requires Joined(v, w, c) && Fits(st, v.mark) && Fits(st, w.mark) && After(st, a).Some?
    ensures var v', w' := Perform(v, a, ch), Perform(w, a, ch);
            Joined(v', w', c) && Fits(After(st, a).value, v'.mark) && Fits(After(st, a).value, w'.mark)
  {
    hide Emit;
    if Older(v, w, c) {
      match a
      case Mark(k) =>
        MarkJoined(v, w, c, k);
        hide Older, Early;
      case Flush(k) =>
        FlushJoined(v, w, c, []);
        assert v.mark.run + [] == v.mark.run;
        assert w.mark.Open? ==> w.mark.run + [] == w.mark.run;
        FlushKinds(v, w, c);
        hide Older, Early;
      case FlushThrough(k) =>
        FlushKinds(v, w, c);
        FlushJoined(v, w, c, [ch]);
        hide Older, Early;
      case Tell(_) =>
    }
  }

  lemma FlushKinds(v: View, w: View, c: nat)
    requires Older(v, w, c)
    ensures v.mark.Open? && (w.mark.Open? ==> w.mark.kind == v.mark.kind)
  {
  }

  lemma {:induction false} ActsJoined(v: View, w: View, c: nat, st: Status, acts: seq<Act>, ch: Byte)
    requires Joined(v, w, c) && Fits(st, v.mark) && Fits(st, w.mark) && AfterAll(st, acts).Some?
    ensures var v', w', e := PerformAll(v, acts, ch), PerformAll(w, acts, ch), AfterAll(st, acts).value;
            Joined(v', w', c) && Fits(e, v'.mark) && Fits(e, w'.mark)
    decreases |acts|
  {
    if acts != [] {
      ActJoined(v, w, c, st, acts[0], ch);
      hide Joined, Fits, Perform;
      ActsJoined(Perform(v, acts[0], ch), Perform(w, acts[0], ch), c, After(st, acts[0]).value, acts[1..], ch);
    }
  }

  lemma TakeJoined(v: View, w: View, c: nat, st: Status, ch: Byte)
    requires Joined(v, w, c) && Fits(st, v.mark) && Fits(st, w.mark) && !st.PerhapsBody?
    ensures Joined(v.(mark := Take(v.mark, ch)), w.(mark := Take(w.mark, ch)), c + 1)
  {
    if v.mark.Open? && |v.mark.run| > c {
      var run := v.mark.run;
      assert Early(run + [ch], c + 1) == Early(run, c);
      assert (run + [ch])[|run| - c..] == run[|run| - c..] + [ch];
    }
  }

  /** The whole stream `s` and the current piece `t` are at the same byte. */
  predicate InStep(s: Sim, t: Sim) {
    && s.parser == t.parser && s.stop == t.stop
    && Joined(s.view, t.view, t.consumed)
    && (!Halted(s) ==> Fits(StatusOf(s.parser.state), s.view.mark) && Fits(StatusOf(s.parser.state), t.view.mark))
    && (s.stop ==> s.view.mark.NoMark?)
  }

  lemma StepInStep(s: Sim, t: Sim, ch: Byte)
    requires InStep(s, t)
    ensures InStep(StepByte(s, ch), StepByte(t, ch))
    ensures StepByte(s, ch).consumed - s.consumed == StepByte(t, ch).consumed - t.consumed
  {
    hide Dispatch, AfterAll, PerformAll, Joined;
    var p := Count(s.parser);
    if !Halted(s) && p.errno == OK {
      DispatchTidy(p, ch);
      var o := Dispatch(p, ch);
      var st := StatusOf(s.parser.state);
      ActsJoined(s.view, t.view, t.consumed, st, o.acts, ch);
      var v, w := PerformAll(s.view, o.acts, ch), PerformAll(t.view, o.acts, ch);
      if o.parser.errno == OK {
        TakeJoined(v, w, t.consumed, AfterAll(st, o.acts).value, ch);
      }
    }
  }

  lemma {:induction false} RunInStep(s: Sim, t: Sim, bytes: Bytes)
    requires InStep(s, t)
    ensures InStep(Run(s, bytes), Run(t, bytes))
    ensures Run(s, bytes).consumed - s.consumed == Run(t, bytes).consumed - t.consumed
    decreases |bytes|
  {
    if bytes != [] {
      hide InStep, StepByte;
      var n := |bytes| - 1;
      RunInStep(s, t, bytes[..n]);
      StepInStep(Run(s, bytes[..n]), Run(t, bytes[..n]), bytes[n]);
    }
  }

  /** Right after a consumed byte an open run is not empty. */
  lemma {:induction false} RunsNonempty(s: Sim, bytes: Bytes)
    requires bytes != []
    ensures var t := Run(s, bytes);
            !Halted(t) && t.view.mark.Open? ==> t.view.mark.run != []
    decreases |bytes|
  {
    hide Dispatch, PerformAll;
  }

  /** A run that is handed over at a cut, and taken up again as `entry`. */
  lemma CutJoined(v: View, w: View, c: nat, entry: Mark)
    requires Joined(v, w, c) && (v.mark.Open? ==> v.mark.run != [])
    requires if entry.Open? then v.mark.Open? && entry == Open(v.mark.kind, [])
             else v.mark.Open? ==> v.mark.kind.BodyKind?
    ensures Joined(v, View(Deliver(w.log, w.mark), entry), 0)
  {
    hide Emit;
    if v.mark.Open? {
      var k, run := v.mark.kind, v.mark.run;
      assert Early(run, 0) == run && run[|run| - 0..] == [];
      if v != w {
        var x, y := Early(run, c), run[|run| - c..];
        assert x + y == run;
        EmitTwice(v.log, k, x, y);
        assert w.mark.NoMark? ==> x == run;
      }
    }
  }

  /** At a cut, the run that is handed over is taken up again by the next call. */
  lemma CutInStep(s: Sim, t: Sim)
    requires InStep(s, t) && !Halted(s)
    requires s.view.mark.Open? ==> s.view.mark.run != []
    ensures InStep(s, Enter(t.parser, Leave(t).log))
  {
    hide Joined;
    CutJoined(s.view, t.view, t.consumed, EntryMark(t.parser.state));
  }

  /** The pieces of a stream are given to successive calls, until one of them fails or stops. */
  function Feed(p: Parser, log: Log, pieces: seq<Bytes>): Result
    decreases |pieces|
  {
    if pieces == [] then Result(p, log, 0, false)
    else
      var r := Call(p, log, pieces[0]);
      if r.parser.errno != OK || r.stop || |pieces| == 1 then r
      else
        var rest := Feed(r.parser, r.log, pieces[1..]);
        rest.(consumed := r.consumed + rest.consumed)
  }

  function Concat(pieces: seq<Bytes>): Bytes
    decreases |pieces|
  {
    if pieces == [] then [] else pieces[0] + Concat(pieces[1..])
  }

  /** Where the piece begins that holds byte `n`. */
  function LastCut(pieces: seq<Bytes>, n: nat): nat
    decreases |pieces|
  {
    if |pieces| <= 1 || n < |pieces[0]| then 0 else |pieces[0]| + LastCut(pieces[1..], n - |pieces[0]|)
  }

  /** The stream is cut behind byte `a` or later, and at the latest right before byte `b`. */
  ghost predicate CutWithin(pieces: seq<Bytes>, a: int, b: nat) {
    exists i :: 0 < i < |pieces| && a < |Concat(pieces[..i])| <= b
  }

  lemma {:induction false} CutsUpTo(pieces: seq<Bytes>, n: nat, i: nat)
    requires 0 < i < |pieces| && |Concat(pieces[..i])| <= n
    ensures |Concat(pieces[..i])| <= LastCut(pieces, n)
    decreases |pieces|
  {
    assert pieces[..i][1..] == pieces[1..][..i - 1];
    if i > 1 {
      CutsUpTo(pieces[1..], n - |pieces[0]|, i - 1);
    }
  }

  lemma {:induction false} LastCutIsCut(pieces: seq<Bytes>, n: nat) returns (i: nat)
    requires LastCut(pieces, n) > 0
    ensures 0 < i < |pieces| && |Concat(pieces[..i])| == LastCut(pieces, n) <= n
    decreases |pieces|
  {
    var m := n - |pieces[0]|;
    i := 1;
    if LastCut(pieces[1..], m) > 0 {
      var k := LastCutIsCut(pieces[1..], m);
      i := k + 1;
    }
    assert pieces[..i][1..] == pieces[1..][..i - 1];
  }

  /** A cut lies there exactly when the last one does. */
  lemma CutWithinIs(pieces: seq<Bytes>, a: nat, b: nat)
    ensures CutWithin(pieces, a, b) <==> LastCut(pieces, b) > a
  {
    if LastCut(pieces, b) > a {
      var i := LastCutIsCut(pieces, b);
      assert a < |Concat(pieces[..i])| <= b;
    }
    forall i | 0 < i < |pieces| && a < |Concat(pieces[..i])| <= b ensures LastCut(pieces, b) > a {
      CutsUpTo(pieces, b, i);
    }
  }

  /** On an error, the last piece begins where the stream was last cut before the byte that fails. */
  lemma {:induction false} FeedInStep(s: Sim, p: Parser, log: Log, pieces: seq<Bytes>)
    requires InStep(s, Enter(p, log)) && !Halted(s)
    requires pieces != [] && forall i :: 0 <= i < |pieces| ==> pieces[i] != []
    ensures var whole, f := Run(s, Concat(pieces)), Feed(p, log, pieces);
            && whole.parser == f.parser && whole.stop == f.stop
            && whole.consumed - s.consumed == f.consumed
            && exists t: Sim :: InStep(whole, t) && f.log == Leave(t).log
                 && (f.parser.errno != OK ==> t.consumed == f.consumed - LastCut(pieces, f.consumed))
    decreases |pieces|
  {
    hide InStep, StepByte;
    var s1, t1 := Run(s, pieces[0]), Run(Enter(p, log), pieces[0]);
    RunInStep(s, Enter(p, log), pieces[0]);
    RunConcat(s, pieces[0], Concat(pieces[1..]));
    SameFate(s1, t1);
    SameFate(s, Enter(p, log));
    RunConsumes(Enter(p, log), pieces[0]);
    if Halted(s1) {
      HaltedStays(s1, Concat(pieces[1..]));
      assert InStep(s1, t1);
    } else if |pieces| == 1 {
      assert pieces[1..] == [];
      assert InStep(s1, t1);
    } else {
      RunsNonempty(s, pieces[0]);
      CutInStep(s1, t1);
      FeedInStep(s1, t1.parser, Leave(t1).log, pieces[1..]);
    }
  }

  lemma SameFate(s: Sim, t: Sim)
    requires InStep(s, t)
    ensures s.parser == t.parser && s.stop == t.stop && Halted(s) == Halted(t)
  {
  }

  /** The bytes that an error keeps from the client in one call on the whole stream. */
  function Lost(p: Parser, log: Log, data: Bytes): Mark {
    var s := Run(Enter(p, log), data);
    if s.parser.errno != OK then s.view.mark else NoMark
  }

  /**
   * Success: everything the client sees is the same.  Error: what it sees of the run that the error cuts off differs.
   */
  lemma LeaveInStep(s: Sim, t: Sim)
    requires InStep(s, t)
    ensures s.parser.errno == OK ==> Leave(s).log == Leave(t).log
    ensures s.parser.errno != OK ==>
              Leave(t).log ==
              if s.view.mark.Open? && |s.view.mark.run| > t.consumed
              then Emit(Leave(s).log, s.view.mark.kind, Early(s.view.mark.run, t.consumed)) else Leave(s).log
  {
    var v, w, c := s.view, t.view, t.consumed;
    if v.mark.Open? && v != w {
      var x, y := Early(v.mark.run, c), v.mark.run[|v.mark.run| - c..];
      assert x + y == v.mark.run;
      EmitTwice(v.log, v.mark.kind, x, y);
      assert c == 0 ==> x == v.mark.run;
    }
  }

  /** Handing over something more is seen by the client. */
  lemma EmitDiffers(log: Log, k: Kind, piece: Bytes)
    requires piece != []
    ensures Emit(log, k, piece) != log
  {
    var e := Emit(log, k, piece);
    if |e| == |log| {
      assert |e[|e| - 1].bytes| > |log[|log| - 1].bytes|;
    }
  }

  lemma {:induction false} ActsShorten(v: View, acts: seq<Act>, ch: Byte, n: nat)
    requires v.mark.Open? ==> |v.mark.run| <= n
    ensures var w := PerformAll(v, acts, ch); w.mark.Open? ==> |w.mark.run| <= n
    decreases |acts|
  {
    hide Emit;
    if acts != [] {
      ActsShorten(Perform(v, acts[0], ch), acts[1..], ch, n);
    }
  }

  /** An open run lies within what the call has consumed. */
  lemma {:induction false} RunWithin(s: Sim, bytes: Bytes)
    requires s.view.mark.Open? ==> |s.view.mark.run| <= s.consumed
    ensures var r := Run(s, bytes); r.view.mark.Open? ==> |r.view.mark.run| <= r.consumed
    decreases |bytes|
  {
    hide Dispatch, PerformAll;
    if bytes != [] {
      var n := |bytes| - 1;
      RunWithin(s, bytes[..n]);
      var t := Run(s, bytes[..n]);
      ActsShorten(t.view, Dispatch(Count(t.parser), bytes[n]).acts, bytes[n], t.consumed);
    }
  }

  /** What of a run lies before the last cut has been handed over before the error. */
  function HandedOver(whole: Result, lost: Mark, cut: nat): Log {
    if lost.Open? && 0 <= whole.consumed - cut < |lost.run|
    then Emit(whole.log, lost.kind, Early(lost.run, whole.consumed - cut)) else whole.log
  }

  /**
   * What the pieces of a stream make of it and what one call on the whole makes of it are the same, and so is what the
   * client sees; but on an error the client has seen of the run that is lost what lies before the last cut.
   */
  ghost predicate SameButLost(whole: Result, f: Result, lost: Mark, pieces: seq<Bytes>) {
    && whole.parser == f.parser && whole.stop == f.stop && whole.consumed == f.consumed
    && (whole.parser.errno == OK ==> whole.log == f.log)
    && (whole.parser.errno != OK ==>
          && f.log == HandedOver(whole, lost, LastCut(pieces, whole.consumed))
          && (f.log == whole.log <==>
              lost.NoMark? || !CutWithin(pieces, whole.consumed - |lost.run|, whole.consumed)))
  }

  /** The whole run and the last piece of a stream, at the end or at the byte that fails. */
  lemma EndsAlike(whole: Sim, t: Sim, f: Result, pieces: seq<Bytes>)
    requires InStep(whole, t) && f.log == Leave(t).log
    requires whole.parser == f.parser && whole.stop == f.stop && whole.consumed == f.consumed
    requires f.parser.errno != OK ==> t.consumed == f.consumed - LastCut(pieces, f.consumed)
    requires whole.view.mark.Open? ==> |whole.view.mark.run| <= whole.consumed
    ensures SameButLost(Leave(whole), f, if whole.parser.errno != OK then whole.view.mark else NoMark, pieces)
  {
    LeaveInStep(whole, t);
    hide InStep, Emit, LastCut, CutWithin;
    var lost := whole.view.mark;
    if whole.parser.errno != OK && lost.Open? {
      CutWithinIs(pieces, whole.consumed - |lost.run|, whole.consumed);
      if |lost.run| > t.consumed {
        EmitDiffers(Leave(whole).log, lost.kind, Early(lost.run, t.consumed));
      }
    }
  }

  /**
   * A stream cut into any non-empty pieces leaves the parser, the error and the number of bytes consumed of one call on
   * the whole of it, and the client sees the same callbacks with the same joined data.  On an error one call on the
   * whole withholds the run that was open; cut into pieces, the part of that run in earlier pieces has been handed
   * over. So the client sees the same exactly when the stream is not cut behind a byte of that run.
   */
  lemma FragmentationIndependence(p: Parser, log: Log, pieces: seq<Bytes>)
    requires pieces != [] && forall i :: 0 <= i < |pieces| ==> pieces[i] != []
    ensures SameButLost(Call(p, log, Concat(pieces)), Feed(p, log, pieces), Lost(p, log, Concat(pieces)), pieces)
  {
    if p.errno != OK {
      FailedBefore(p, log, pieces);
    } else {
      assert Concat(pieces) != [];
      var s := Enter(p, log);
      FirstInStep(p, log);
      FeedInStep(s, p, log, pieces);
      RunWithin(s, Concat(pieces));
      var whole, f := Run(s, Concat(pieces)), Feed(p, log, pieces);
      assert Call(p, log, Concat(pieces)) == Leave(whole);
      var t: Sim :| InStep(whole, t) && f.log == Leave(t).log
                 && (f.parser.errno != OK ==> t.consumed == f.consumed - LastCut(pieces, f.consumed));
      hide InStep, Run, Feed, LastCut, SameButLost, Concat, Enter, Call, StepByte;
      EndsAlike(whole, t, f, pieces);
    }
  }

  /** A parser that has failed before does nothing more. */
  lemma FailedBefore(p: Parser, log: Log, pieces: seq<Bytes>)
    requires p.errno != OK && pieces != [] && forall i :: 0 <= i < |pieces| ==> pieces[i] != []
    ensures SameButLost(Call(p, log, Concat(pieces)), Feed(p, log, pieces), Lost(p, log, Concat(pieces)), pieces)
  {
    hide StepByte;
    HaltedStays(Enter(p, log), Concat(pieces));
  }

  lemma FirstInStep(p: Parser, log: Log)
    requires p.errno == OK
    ensures InStep(Enter(p, log), Enter(p, log))
  {
  }

  // ---------- an input for which the client sees more ----------

  const GET_SLASH: Bytes := "GET /"
  const A_TAB: Bytes := [TAB]

  /** A new parser after `n` bytes of the word GET and a space. */
  function InGet(n: nat): Parser {
    INITIAL.(state := if n == 4 then SpacesBeforeUrl else ReqMethod, verb := GET, index := n, nread := n,
             contentLength := ULLONG_MAX)
  }

  const BEGUN: Log := [Note(MessageBegin)]

  lemma StartDispatch(p: Parser, ch: Byte)
    requires p.state.StartReq?
    ensures Dispatch(p, ch) == OnStartReq(p, ch)
  {
    hide OnStartReq;
  }

  lemma FirstLetter()
    ensures StepByte(Enter(INITIAL, []), 'G') == Sim(InGet(1), View(BEGUN, NoMark), 1, false)
  {
    var s := Enter(INITIAL, []);
    var acts := [Tell(MessageBegin)];
    assert acts[1..] == [] && [] + [Note(MessageBegin)] == BEGUN;
    StartDispatch(Count(s.parser), 'G');
    hide Dispatch;
    assert Dispatch(Count(s.parser), 'G') == Out(InGet(1), acts, false);
    assert PerformAll(s.view, acts, 'G') == PerformAll(Perform(s.view, acts[0], 'G'), acts[1..], 'G');
  }

  lemma NextLetter(n: nat)
    requires 1 <= n < 4
    ensures StepByte(Sim(InGet(n), View(BEGUN, NoMark), n, false), GET_SLASH[n])
         == Sim(InGet(n + 1), View(BEGUN, NoMark), n + 1, false)
  {
    assert GET_SLASH[1] == 'E' && GET_SLASH[2] == 'T' && GET_SLASH[3] == ' ';
    assert MethodString(GET) == "GET";
  }

  lemma {:induction false} WordRuns(n: nat)
    requires 1 <= n <= 4
    ensures Run(Enter(INITIAL, []), GET_SLASH[..n]) == Sim(InGet(n), View(BEGUN, NoMark), n, false)
  {
    hide StepByte;
    var w := GET_SLASH[..n];
    assert w[..n - 1] == GET_SLASH[..n - 1];
    if n == 1 {
      FirstLetter();
      assert w == ['G'] && w[..0] == [];
    } else {
      WordRuns(n - 1);
      NextLetter(n - 1);
    }
  }

  /** A parser in the URL, after its first byte. */
  const IN_URL: Parser := InGet(4).(state := UrlPath, nread := 5)

  lemma SlashStep(s: Sim)
    requires s == Sim(InGet(4), View(BEGUN, NoMark), 4, false)
    ensures StepByte(s, '/') == Sim(IN_URL, View(BEGUN, Open(UrlKind, ['/'])), 5, false)
  {
    var acts := [Mark(UrlKind)];
    assert acts[1..] == [] && [] + ['/'] == ['/'];
    assert Dispatch(Count(s.parser), '/') == Out(IN_URL, acts, false);
    assert PerformAll(s.view, acts, '/') == PerformAll(Perform(s.view, acts[0], '/'), acts[1..], '/');
  }

  lemma TabStep(s: Sim)
    requires !Halted(s) && s.parser == IN_URL
    ensures StepByte(s, TAB) == Sim(IN_URL.(state := Dead, nread := 6, errno := InvalidUrl), s.view, s.consumed, false)
  {
  }

  lemma TwoPieces(a: Bytes, b: Bytes, p: Parser, log: Log)
    ensures Concat([a, b]) == a + b
    ensures var r := Call(p, log, a);
            r.parser.errno == OK && !r.stop ==>
              var f := Call(r.parser, r.log, b);
              Feed(p, log, [a, b]) == f.(consumed := r.consumed + f.consumed)
  {
    hide Call;
    assert [a, b][1..] == [b] && Concat([b]) == b + Concat([b][1..]);
  }

  /** The URL is handed over at the end of the first piece. */
  const SEEN: Log := BEGUN + [Data(UrlKind, ['/'])]

  lemma GetSlashRuns()
    ensures Run(Enter(INITIAL, []), GET_SLASH) == Sim(IN_URL, View(BEGUN, Open(UrlKind, ['/'])), 5, false)
  {
    hide StepByte, Run;
    var s := Enter(INITIAL, []);
    WordRuns(4);
    assert GET_SLASH[..4] + ['/'] == GET_SLASH;
    RunConcat(s, GET_SLASH[..4], ['/']);
    SlashStep(Run(s, GET_SLASH[..4]));
    RunOne(Run(s, GET_SLASH[..4]), '/');
  }

  lemma FirstCall()
    ensures Call(INITIAL, [], GET_SLASH) == Result(IN_URL, SEEN, 5, false)
  {
    hide Run;
    GetSlashRuns();
  }

  lemma SecondCall()
    ensures Call(IN_URL, SEEN, A_TAB).log == SEEN && Call(IN_URL, SEEN, A_TAB).parser.errno == InvalidUrl
  {
    hide StepByte, Run;
    TabStep(Enter(IN_URL, SEEN));
    RunOne(Enter(IN_URL, SEEN), TAB);
  }

  lemma WholeCall()
    ensures var r := Call(INITIAL, [], GET_SLASH + A_TAB); r.log == BEGUN && r.parser.errno == InvalidUrl
  {
    hide StepByte, Run;
    var s := Enter(INITIAL, []);
    GetSlashRuns();
    TabStep(Run(s, GET_SLASH));
    RunConcat(s, GET_SLASH, A_TAB);
    RunOne(Run(s, GET_SLASH), TAB);
  }

  /** A bad byte in the URL of a new request, cut off from the byte before it, which only then reaches the client. */
  lemma ErrorWithholds()
    ensures var pieces := [GET_SLASH, A_TAB];
            var whole, f := Call(INITIAL, [], Concat(pieces)), Feed(INITIAL, [], pieces);
            && whole.log == BEGUN && f.log == BEGUN + [Data(UrlKind, ['/'])]
            && whole.parser.errno == f.parser.errno == InvalidUrl
  {
    hide Call, Feed, Concat, GET_SLASH, A_TAB;
    FirstCall();
    SecondCall();
    WholeCall();
    TwoPieces(GET_SLASH, A_TAB, INITIAL, []);
  }
}
