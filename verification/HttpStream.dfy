/** A stream of requests that arrives in pieces. */
module HttpStream {
  import opened HttpTypes
  import opened HttpStep
  import opened HttpRun
  import opened HttpAsserts
  import opened HttpFragment
  import opened HttpBulk
  import opened HttpExecute

  // ---------- what a failing call leaves ----------

  /** The byte that fails is the first that is not consumed. */
  lemma FailsAt(s0: Sim, data: Bytes)
    requires s0.consumed == 0 && !Halted(s0) && Run(s0, data).parser.errno != OK
    ensures var e := Run(s0, data).consumed;
            && e < |data| && !Halted(Run(s0, data[..e])) && Run(s0, data[..e]).consumed == e
            && Run(s0, data) == StepByte(Run(s0, data[..e]), data[e])
  {
    hide StepByte;
    RunConsumes(s0, data);
    var e := Run(s0, data).consumed;
    var t, u := Run(s0, data[..e]), Run(s0, data[..e + 1]);
    RunConsumes(s0, data[..e]);
    RunConsumes(s0, data[..e + 1]);
    assert data[..e + 1][..e] == data[..e];
    if Halted(t) {
      BrokeFor(s0, data, e);
    } else if Halted(u) {
      BrokeFor(s0, data, e + 1);
    } else {
      AtNext(s0, data, e + 1, |data|);
      assert data[..|data|] == data;
      RunConsumes(u, data[e + 1..]);
    }
  }

  /** A byte within a value, or one that fails there, is counted; a bad byte changes no header state. */
  lemma ValueByte(s: Sim, ch: Byte)
    requires !Halted(s) && s.parser.state.HeaderValue?
    ensures var q := StepByte(s, ch).parser;
            && (q.state.HeaderValue? && q.errno != HeaderOverflow ==> q.nread == s.parser.nread + 1)
            && (q.errno.InvalidHeaderToken? ==> q.headerState == s.parser.headerState)
            && (q.errno != OK ==> q.state.HeaderValue?)
  {
    hide ValueChar;
    var n := s.parser.nread + 1;
    ValueCharOnly(s.parser.(nread := n), ch, n);
    BadByte(s.parser.(nread := n), ch);
    ValueCharState(s.parser.(nread := n), ch);
  }

  lemma BadByte(p: Parser, ch: Byte)
    requires p.errno == OK
    ensures ValueChar(p, ch).errno.InvalidHeaderToken? ==> ValueChar(p, ch).headerState == p.headerState
  {
    if IsHeaderChar(ch) {
      OtherErrors(p, ch);
    }
  }

  lemma {:induction false} ScanCounts(s0: Sim, data: Bytes, p: nat, e: nat)
    requires p <= e <= |data| && ScanStart(s0, data, e) <= p
    requires !Halted(Run(s0, data[..e])) && Run(s0, data[..e]).parser.state.HeaderValue?
    ensures Run(s0, data[..e]).parser.nread == Run(s0, data[..p]).parser.nread + (e - p)
    decreases e
  {
    hide StepByte;
    if p < e {
      var t := Run(s0, data[..e - 1]);
      assert data[..e][..e - 1] == data[..e - 1];
      if Halted(t) {
        HaltedByte(t, data[e - 1]);
      }
      ScanCounts(s0, data, p, e - 1);
      ValueByte(t, data[e - 1]);
    }
  }

  /**
   * The fields that a failing call leaves are those of the byte-by-byte run exactly unless it had scanned on in a
   * value.
   */
  lemma KeptAgrees(s0: Sim, data: Bytes, cut: nat)
    requires s0.consumed == 0 && !Halted(s0)
    requires Run(s0, data).parser.errno != OK && Run(s0, data).parser.errno != HeaderOverflow
    ensures var e := Run(s0, data).consumed;
            && e < |data|
            && (Kept(s0, data, cut) == Run(s0, data).parser <==>
                !Run(s0, data[..e]).parser.state.HeaderValue? || ScanStart(s0, data, e) == e || cut >= e)
  {
    FailsAt(s0, data);
    var e := Run(s0, data).consumed;
    var t := Run(s0, data[..e]);
    hide StepByte, Run, ScanStart;
    if t.parser.state.HeaderValue? {
      ValueByte(t, data[e]);
      ScanCounts(s0, data, Max(ScanStart(s0, data, e), Min(cut, e)), e);
    }
  }

  // ---------- pieces of a stream ----------

  /** The calls on the first `i` pieces have read `c` bytes without an error, and left `p`. */
  ghost predicate Standing(s0: Sim, pieces: seq<Bytes>, i: nat, c: nat, p: Parser, log: Log) {
    var whole := Concat(pieces);
    && s0.consumed == 0 && i <= |pieces| && c <= |whole| && whole[c..] == Concat(pieces[i..])
    && !Halted(Run(s0, whole[..c])) && InStep(Run(s0, whole[..c]), Enter(p, log))
    && (i < |pieces| ==> forall m: nat :: LastCut(pieces, c + m) == c + LastCut(pieces[i..], m))
  }

  lemma StandingFirst(p: Parser, log: Log, pieces: seq<Bytes>)
    requires p.errno == OK
    ensures Standing(Enter(p, log), pieces, 0, 0, p, log)
  {
    hide StepByte, LastCut;
    FirstInStep(p, log);
    assert pieces[0..] == pieces && Concat(pieces)[..0] == [] && Concat(pieces)[0..] == Concat(pieces);
  }

  /** The whole stream and the piece that begins at byte `c` of it. */
  lemma PieceInStep(s0: Sim, whole: Bytes, c: nat, t: Sim, piece: Bytes, j: nat)
    requires c + |piece| <= |whole| && whole[c..c + |piece|] == piece && j <= |piece|
    requires InStep(Run(s0, whole[..c]), t)
    ensures InStep(Run(s0, whole[..c + j]), Run(t, piece[..j]))
    ensures Run(s0, whole[..c + j]).parser == Run(t, piece[..j]).parser
    ensures Halted(Run(s0, whole[..c + j])) == Halted(Run(t, piece[..j]))
  {
    hide InStep, StepByte, Run;
    AtNext(s0, whole, c, c + j);
    assert whole[c..c + j] == piece[..j];
    RunInStep(Run(s0, whole[..c]), t, piece[..j]);
    SameFate(Run(s0, whole[..c + j]), Run(t, piece[..j]));
  }

  lemma {:induction false} PieceScan(s0: Sim, whole: Bytes, c: nat, t: Sim, piece: Bytes, j: nat)
    requires c + |piece| <= |whole| && whole[c..c + |piece|] == piece && j <= |piece|
    requires InStep(Run(s0, whole[..c]), t)
    ensures Max(ScanStart(s0, whole, c + j), c) == c + ScanStart(t, piece, j)
    decreases j
  {
    hide InStep, Run;
    if j > 0 {
      PieceInStep(s0, whole, c, t, piece, j - 1);
      PieceScan(s0, whole, c, t, piece, j - 1);
    }
  }

  lemma KeptSame(s0: Sim, whole: Bytes, c: nat, t: Sim, piece: Bytes, e: nat)
    requires s0.consumed == t.consumed == 0 && c + |piece| <= |whole| && e <= |piece|
    requires Run(t, piece).consumed == e && Run(s0, whole).consumed == c + e
    requires Run(s0, whole).parser == Run(t, piece).parser
    requires Run(s0, whole[..c + e]).parser == Run(t, piece[..e]).parser
    requires Max(ScanStart(s0, whole, c + e), c) == c + ScanStart(t, piece, e)
    requires Run(s0, whole[..c + ScanStart(t, piece, e)]).parser == Run(t, piece[..ScanStart(t, piece, e)]).parser
    ensures Kept(s0, whole, c) == Kept(t, piece, 0)
  {
    hide Run, ScanStart, Halted;
  }

  /** A call that fails leaves of its piece what is left of the whole stream, scanned from no earlier than the piece. */
  lemma PieceKept(s0: Sim, whole: Bytes, c: nat, t: Sim, piece: Bytes)
    requires s0.consumed == t.consumed == 0 && !Halted(t)
    requires c + |piece| <= |whole| && whole[c..c + |piece|] == piece
    requires InStep(Run(s0, whole[..c]), t) && Run(s0, whole[..c]).consumed == c
    requires Run(t, piece).parser.errno != OK
    ensures Kept(s0, whole, c) == Kept(t, piece, 0)
  {
    hide InStep, StepByte, Run, ScanStart, Kept;
    FailsAt(t, piece);
    var e := Run(t, piece).consumed;
    assert piece[..|piece|] == piece;
    PieceInStep(s0, whole, c, t, piece, |piece|);
    BrokeFor(s0, whole, c + |piece|);
    RunInStep(Run(s0, whole[..c]), t, piece);
    AtNext(s0, whole, c, c + |piece|);
    PieceInStep(s0, whole, c, t, piece, e);
    PieceScan(s0, whole, c, t, piece, e);
    PieceInStep(s0, whole, c, t, piece, ScanStart(t, piece, e));
    KeptSame(s0, whole, c, t, piece, e);
  }

  lemma PieceNext(s0: Sim, pieces: seq<Bytes>, i: nat, c: nat, p: Parser, log: Log)
    requires Standing(s0, pieces, i, c, p, log) && i < |pieces| && pieces[i] != []
    ensures var r := Call(p, log, pieces[i]);
            && (r.parser.errno == OK && !r.stop ==> Standing(s0, pieces, i + 1, c + r.consumed, r.parser, r.log))
            && (r.parser.errno != OK ==>
                  KeptBy(p, log, pieces[i], 0) == Kept(s0, Concat(pieces), LastCut(pieces, c + r.consumed)))
  {
    hide InStep, StepByte, Run, Kept;
    var whole, piece, rest := Concat(pieces), pieces[i], pieces[i + 1..];
    var s, t := Run(s0, whole[..c]), Enter(p, log);
    var u := Run(t, piece);
    assert pieces[i..][0] == piece && pieces[i..][1..] == rest;
    assert whole[c..] == piece + Concat(rest);
    assert whole[c..c + |piece|] == whole[c..][..|piece|] == piece;
    SameFate(s, t);
    RunConsumes(s0, whole[..c]);
    RunConsumes(t, piece);
    assert piece[..|piece|] == piece;
    PieceInStep(s0, whole, c, t, piece, |piece|);
    if u.parser.errno != OK {
      PieceKept(s0, whole, c, t, piece);
      assert LastCut(pieces, c + u.consumed) == c + LastCut(pieces[i..], u.consumed);
    } else if !u.stop {
      AtNext(s0, whole, c, c + |piece|);
      RunsNonempty(s, piece);
      CutInStep(Run(s0, whole[..c + |piece|]), u);
      assert whole[c + |piece|..] == whole[c..][|piece|..] == Concat(rest);
      forall m: nat | i + 1 < |pieces| ensures LastCut(pieces, c + |piece| + m) == c + |piece| + LastCut(rest, m) {
        assert LastCut(pieces, c + (|piece| + m)) == c + LastCut(pieces[i..], |piece| + m);
      }
    }
  }

  /**
   * Successive calls on the pieces, until one fails: together they do what one byte-by-byte call on the whole does, but
   * on an error the client has been handed what lies before the last cut, and a value is scanned from no earlier.
   */
  method ExecuteAll(parser: HttpParser, pieces: seq<Bytes>) returns (consumed: nat)
    requires parser.Valid() && parser.errno == OK
    requires pieces != [] && forall i :: 0 <= i < |pieces| ==> pieces[i] != []
    requires !Call(parser.Value(), parser.log, Concat(pieces)).stop
    modifies parser
    ensures parser.Valid()
    ensures var p, l := old(parser.Value()), old(parser.log);
            var whole, lost := Call(p, l, Concat(pieces)), Lost(p, l, Concat(pieces));
            var cut := LastCut(pieces, whole.consumed);
            && (whole.parser.errno == OK ==>
                  parser.Value() == whole.parser && parser.log == whole.log && consumed == whole.consumed)
            && (whole.parser.errno != OK && whole.parser.errno != HeaderOverflow ==>
                  && parser.Value() == KeptBy(p, l, Concat(pieces), cut) && consumed == whole.consumed
                  && parser.log == HandedOver(whole, lost, cut))
            && (whole.parser.errno == HeaderOverflow ==> parser.errno != OK)
  {
    hide Sane, Run, Call, HttpParser.Valid, Lost, Feed, Concat, LastCut, Kept, HandedOver, CutWithin, Enter, Under;
    ghost var p, l := parser.Value(), parser.log;
    ghost var s0, f := Enter(p, l), Feed(p, l, pieces);
    FragmentationIndependence(p, l, pieces);
    UnderFirst(p, l, pieces);
    var i, n := 0, 0;
    consumed := 0;
    while i < |pieces| && parser.errno == OK
      invariant 0 <= i <= |pieces| && parser.Valid()
      invariant Under(f, s0, pieces, i, parser.Value(), parser.log, consumed)
      decreases |pieces| - i, parser.errno == OK
    {
      ghost var q, log := parser.Value(), parser.log;
      n := parser.Execute(pieces[i]);
      UnderNext(f, s0, pieces, i, q, log, consumed, parser.Value(), parser.log, n);
      consumed := consumed + n;
      i := i + 1;
    }
    UnderLast(f, p, l, pieces, i, parser.Value(), parser.log, consumed);
  }

  lemma NotNothing(pieces: seq<Bytes>)
    requires pieces != [] && pieces[0] != []
    ensures Concat(pieces) != []
  {
  }

  /** The rest of the feed leads to the result. */
  ghost predicate Ahead(f: Result, p: Parser, log: Log, pieces: seq<Bytes>, consumed: nat) {
    var rest := Feed(p, log, pieces);
    !f.stop && f == rest.(consumed := consumed + rest.consumed)
  }

  /** The calls have failed as the feed fails, except that beyond the header limit they have failed somehow. */
  ghost predicate FailedAs(f: Result, s0: Sim, pieces: seq<Bytes>, p: Parser, log: Log, consumed: nat) {
    s0.consumed == 0 && p.errno != OK
    && (f.parser.errno == HeaderOverflow
        || (f.parser.errno != OK && p == Kept(s0, Concat(pieces), LastCut(pieces, f.consumed))
            && log == f.log && consumed == f.consumed))
  }

  /** The calls on the first `i` pieces have left `p` and `log`: an error, or what the rest of the feed goes on from. */
  ghost predicate Under(f: Result, s0: Sim, pieces: seq<Bytes>, i: nat, p: Parser, log: Log, consumed: nat) {
    && i <= |pieces|
    && if p.errno != OK then FailedAs(f, s0, pieces, p, log, consumed)
       else
         && Standing(s0, pieces, i, consumed, p, log)
         && if i < |pieces| then Ahead(f, p, log, pieces[i..], consumed) else f == Result(p, log, consumed, false)
  }

  lemma UnderFirst(p: Parser, log: Log, pieces: seq<Bytes>)
    requires p.errno == OK && pieces != [] && !Feed(p, log, pieces).stop
    ensures Under(Feed(p, log, pieces), Enter(p, log), pieces, 0, p, log, 0)
  {
    hide Standing, Feed, Enter;
    StandingFirst(p, log, pieces);
    assert pieces[0..] == pieces;
  }

  lemma UnderNext(f: Result, s0: Sim, pieces: seq<Bytes>, i: nat, p: Parser, log: Log, c: nat,
                  q: Parser, log': Log, n: nat)
    requires i < |pieces| && pieces[i] != [] && p.errno == OK && Under(f, s0, pieces, i, p, log, c)
    requires Does(p, log, pieces[i], q, log', n)
    ensures Under(f, s0, pieces, i + 1, q, log', c + n)
  {
    hide Call, Standing, Kept, KeptBy, Ahead, LastCut;
    StandingConsumed(s0, pieces, i, c, p, log);
    FeedFirst(f, p, log, pieces[i..], c);
    PieceNext(s0, pieces, i, c, p, log);
    assert pieces[i..][0] == pieces[i] && pieces[i..][1..] == pieces[i + 1..];
  }

  lemma StandingConsumed(s0: Sim, pieces: seq<Bytes>, i: nat, c: nat, p: Parser, log: Log)
    requires Standing(s0, pieces, i, c, p, log)
    ensures s0.consumed == 0
  {
  }

  lemma UnderLast(f: Result, p: Parser, l: Log, pieces: seq<Bytes>, i: nat, q: Parser, log: Log, consumed: nat)
    requires Under(f, Enter(p, l), pieces, i, q, log, consumed) && (q.errno == OK ==> i == |pieces|)
    requires SameButLost(Call(p, l, Concat(pieces)), f, Lost(p, l, Concat(pieces)), pieces)
    requires p.errno == OK && pieces != [] && pieces[0] != []
    ensures var whole, lost := Call(p, l, Concat(pieces)), Lost(p, l, Concat(pieces));
            var cut := LastCut(pieces, whole.consumed);
            && (whole.parser.errno == OK ==> q == whole.parser && log == whole.log && consumed == whole.consumed)
            && (whole.parser.errno != OK && whole.parser.errno != HeaderOverflow ==>
                  && q == KeptBy(p, l, Concat(pieces), cut) && consumed == whole.consumed
                  && log == HandedOver(whole, lost, cut))
            && (whole.parser.errno == HeaderOverflow ==> q.errno != OK)
  {
    hide Call, Lost, Concat, LastCut, Kept, HandedOver, CutWithin, Enter, Standing, Ahead;
    NotNothing(pieces);
  }

  lemma FeedFirst(f: Result, p: Parser, log: Log, pieces: seq<Bytes>, consumed: nat)
    requires pieces != [] && p.errno == OK && Ahead(f, p, log, pieces, consumed)
    ensures var r := Call(p, log, pieces[0]);
            && !r.stop
            && (r.parser.errno != OK ==> f == r.(consumed := consumed + r.consumed))
            && (r.parser.errno == OK && |pieces| == 1 ==> f == r.(consumed := consumed + r.consumed))
            && (r.parser.errno == OK && |pieces| > 1 ==> Ahead(f, r.parser, r.log, pieces[1..], consumed + r.consumed))
  {
    hide Call;
  }
}
