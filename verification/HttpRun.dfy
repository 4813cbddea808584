/** Byte-at-a-time runs of the request parser, and what a client sees of them. */
module HttpRun {
  import opened HttpTypes
  import opened HttpStep

  // ---------- the client ----------

  /** What the callbacks receive; a client joins consecutive pieces of one kind. */
  datatype Event = Data(kind: Kind, bytes: Bytes) | Note(notice: Notice)

  type Log = seq<Event>

  /** A data callback: the piece continues the run of its kind, or starts a new one. */
  function Emit(log: Log, k: Kind, piece: Bytes): Log {
    if |log| > 0 && log[|log| - 1].Data? && log[|log| - 1].kind == k
    then log[..|log| - 1] + [Data(k, log[|log| - 1].bytes + piece)]
    else log + [Data(k, piece)]
  }

  /** Two consecutive pieces tell a client no more than the joined piece. */
  lemma EmitTwice(log: Log, k: Kind, a: Bytes, b: Bytes)
    ensures Emit(Emit(log, k, a), k, b) == Emit(log, k, a + b)
  {
    if |log| > 0 && log[|log| - 1].Data? && log[|log| - 1].kind == k {
      assert log[|log| - 1].bytes + a + b == log[|log| - 1].bytes + (a + b);
    }
  }

  // ---------- marks ----------

  /** The run of data begun in this call and not handed over yet. */
  datatype Mark = NoMark | Open(kind: Kind, run: Bytes)

  function Deliver(log: Log, m: Mark): Log {
    match m
    case NoMark => log
    case Open(k, run) => Emit(log, k, run)
  }

  datatype View = View(log: Log, mark: Mark)

  /** One act at byte `ch`. */
  function Perform(v: View, a: Act, ch: Byte): View {
    match a
    case Mark(k) => if v.mark.NoMark? then v.(mark := Open(k, [])) else v
    case Flush(k) =>
      if v.mark.Open? && v.mark.kind == k then View(Emit(v.log, k, v.mark.run), NoMark) else v
    case FlushThrough(k) =>
      if v.mark.Open? && v.mark.kind == k then View(Emit(v.log, k, v.mark.run + [ch]), NoMark) else v
    case Tell(n) => v.(log := v.log + [Note(n)])
  }

  function PerformAll(v: View, acts: seq<Act>, ch: Byte): View
    decreases |acts|
  {
    if acts == [] then v else PerformAll(Perform(v, acts[0], ch), acts[1..], ch)
  }

  lemma PerformOne(v: View, a: Act, ch: Byte)
    ensures PerformAll(v, [a], ch) == Perform(v, a, ch)
  {
    hide Perform;
    assert [a][1..] == [] && PerformAll(Perform(v, a, ch), [], ch) == Perform(v, a, ch);
  }

  /** A byte that is consumed with a mark set belongs to the marked run. */
  function Take(m: Mark, ch: Byte): Mark {
    match m
    case NoMark => m
    case Open(k, run) => Open(k, run + [ch])
  }

  // ---------- runs ----------

  /** A run so far: the parser, the client's log, the open run, the bytes consumed, and whether the call returned. */
  datatype Sim = Sim(parser: Parser, view: View, consumed: nat, stop: bool)

  predicate Halted(s: Sim) {
    s.parser.errno != OK || s.stop
  }

  /** The bytes of the header part count against the limit. */
  function Count(p: Parser): Parser {
    if !ParsingHeader(p.state) then p
    else
      var q := p.(nread := p.nread + 1);
      if q.nread > MAX_HEADER_SIZE then q.(errno := HeaderOverflow) else q
  }

  function StepByte(s: Sim, ch: Byte): Sim {
    if Halted(s) then s
    else
      var p := Count(s.parser);
      if p.errno != OK then s.(parser := p)
      else
        var o := Dispatch(p, ch);
        var v := PerformAll(s.view, o.acts, ch);
        if o.parser.errno != OK then Sim(o.parser, v, s.consumed, false)
        else Sim(o.parser, v.(mark := Take(v.mark, ch)), s.consumed + 1, o.stop)
  }

  function Run(s: Sim, bytes: Bytes): Sim
    decreases |bytes|
  {
    if bytes == [] then s else StepByte(Run(s, bytes[..|bytes| - 1]), bytes[|bytes| - 1])
  }

  /** A byte whose branch does one act. */
  lemma OneActStep(s: Sim, ch: Byte, q: Parser, a: Act)
    requires !Halted(s) && Count(s.parser).errno == OK && q.errno == OK
    requires Dispatch(Count(s.parser), ch) == Out(q, [a], false)
    ensures var v := Perform(s.view, a, ch);
            StepByte(s, ch) == Sim(q, v.(mark := Take(v.mark, ch)), s.consumed + 1, false)
  {
    hide Dispatch, PerformAll, Count;
    PerformOne(s.view, a, ch);
  }

  lemma OneActFails(s: Sim, ch: Byte, q: Parser, a: Act)
    requires !Halted(s) && Count(s.parser).errno == OK && q.errno != OK
    requires Dispatch(Count(s.parser), ch) == Out(q, [a], false)
    ensures StepByte(s, ch) == Sim(q, Perform(s.view, a, ch), s.consumed, false)
  {
    hide Dispatch, PerformAll, Count;
    PerformOne(s.view, a, ch);
  }

  /** The limit of a head is 81920 bytes: the byte behind it is refused. */
  lemma HeadLimit(s: Sim, ch: Byte)
    requires !Halted(s) && ParsingHeader(s.parser.state)
    ensures s.parser.nread >= 81920 <==> Count(s.parser).errno == HeaderOverflow
    ensures s.parser.nread >= 81920 ==> StepByte(s, ch).parser.errno == HeaderOverflow
  {
    hide Dispatch;
  }

  lemma {:induction false} RunConcat(s: Sim, a: Bytes, b: Bytes)
    ensures Run(s, a + b) == Run(Run(s, a), b)
    decreases |b|
  {
    if b == [] {
      assert a + b == a;
    } else {
      var n := |b| - 1;
      assert (a + b)[..|a + b| - 1] == a + b[..n];
      RunConcat(s, a, b[..n]);
    }
  }

  lemma {:induction false} HaltedStays(s: Sim, bytes: Bytes)
    requires Halted(s)
    ensures Run(s, bytes) == s
    decreases |bytes|
  {
    if bytes != [] {
      HaltedStays(s, bytes[..|bytes| - 1]);
    }
  }

  lemma RunNothing(s: Sim)
    ensures Run(s, []) == s
  {
  }

  lemma RunOne(s: Sim, ch: Byte)
    ensures Run(s, [ch]) == StepByte(s, ch)
  {
    assert [ch][..0] == [] && Run(s, []) == s;
  }

  lemma RunMore(s: Sim, a: Bytes, ch: Byte)
    ensures Run(s, a + [ch]) == StepByte(Run(s, a), ch)
  {
    assert (a + [ch])[..|a|] == a;
  }

  lemma HaltedByte(s: Sim, ch: Byte)
    requires Halted(s)
    ensures StepByte(s, ch) == s
  {
  }

  /** Every byte is consumed up to the one that fails, or with which the call returns. */
  lemma {:induction false} RunConsumes(s: Sim, bytes: Bytes)
    ensures var r := Run(s, bytes);
            && s.consumed <= r.consumed <= s.consumed + |bytes|
            && (!Halted(r) ==> r.consumed == s.consumed + |bytes|)
            && (!Halted(s) && r.parser.errno != OK ==> r.consumed < s.consumed + |bytes|)
    decreases |bytes|
  {
    hide Dispatch, PerformAll;
    if bytes != [] {
      var n := |bytes| - 1;
      RunConsumes(s, bytes[..n]);
      if Halted(Run(s, bytes[..n])) {
        HaltedByte(Run(s, bytes[..n]), bytes[n]);
      }
    }
  }

  /** Some bytes are counted, and the parser is in another state. */
  function Moved(s: Sim, state: State, n: nat): Sim {
    s.(parser := s.parser.(state := state, nread := s.parser.nread + n), consumed := s.consumed + n)
  }

  // ---------- calls ----------

  /** The run that is open when a call begins in a state. */
  function EntryMark(s: State): Mark {
    if s.HeaderField? then Open(FieldKind, [])
    else if s.HeaderValue? then Open(ValueKind, [])
    else if InUrl(s) then Open(UrlKind, [])
    else NoMark
  }

  function Enter(p: Parser, log: Log): Sim {
    Sim(p, View(log, EntryMark(p.state)), 0, false)
  }

  /** What one call leaves behind and returns. */
  datatype Result = Result(parser: Parser, log: Log, consumed: nat, stop: bool)

  /** At the end of the bytes an open run is handed over; an error loses it. */
  function Leave(s: Sim): Result {
    Result(s.parser, if Halted(s) then s.view.log else Deliver(s.view.log, s.view.mark), s.consumed, s.stop)
  }

  /** A call without bytes reports the end of the stream. */
  function EndOfStream(p: Parser, log: Log): Result {
    if p.state.Dead? || p.state.StartReq? then Result(p, log, 0, false)
    else Result(p.(errno := InvalidEofState), log, 1, false)
  }

  /** One call of the parser, byte by byte. */
  function Call(p: Parser, log: Log, data: Bytes): Result {
    if p.errno != OK then Result(p, log, 0, false)
    else if data == [] then EndOfStream(p, log)
    else Leave(Run(Enter(p, log), data))
  }
}
