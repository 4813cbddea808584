/** The headers of a request in a row, and what they say together. */
module HttpHead {
  import opened HttpTypes
  import opened HttpStep
  import opened HttpRun
  import opened HttpNames
  import opened HttpLists
  import opened HttpHeaders

  function HeadersText(hs: seq<Header>): Bytes
    decreases |hs|
  {
    if hs == [] then [] else HeadersText(hs[..|hs| - 1]) + HeaderText(hs[|hs| - 1])
  }

  predicate WellHeaders(hs: seq<Header>) {
    forall i :: 0 <= i < |hs| ==> WellHeader(hs[i])
  }

  /** The callbacks of the headers. */
  function HeaderEvents(hs: seq<Header>): Log
    decreases |hs|
  {
    if hs == [] then []
    else
      var h := hs[|hs| - 1];
      HeaderEvents(hs[..|hs| - 1]) + [Data(FieldKind, h.name), Data(ValueKind, h.value)]
  }

  // ---------- what the headers say ----------

  /** A Connection header has an option. */
  ghost predicate Wants(hs: seq<Header>, option: Bytes) {
    exists i :: 0 <= i < |hs| && MeaningOf(hs[i].name).IsConnection? && HasOption(hs[i].value, option)
  }

  /** A Transfer-Encoding header ends in `chunked`. */
  ghost predicate IsChunked(hs: seq<Header>) {
    exists i :: 0 <= i < |hs| && MeaningOf(hs[i].name).IsCoding? && EndsChunked(hs[i].value)
  }

  /** A header's name begins with `transfer-encoding`. */
  ghost predicate IsCoded(hs: seq<Header>) {
    exists i :: 0 <= i < |hs| && "transfer-encoding" <= LowerCase(hs[i].name)
  }

  ghost predicate IsUpgraded(hs: seq<Header>) {
    exists i :: 0 <= i < |hs| && MeaningOf(hs[i].name).IsUpgrade? && hs[i].value != []
  }

  ghost predicate HasLengthHeader(hs: seq<Header>) {
    exists i :: 0 <= i < |hs| && MeaningOf(hs[i].name).IsLength?
  }

  /** The lengths declared are numbers within the limit, and there is at most one. */
  predicate LengthsFit(hs: seq<Header>) {
    && (forall i :: 0 <= i < |hs| && MeaningOf(hs[i].name).IsLength? ==> IsLengthValue(hs[i].value))
    && (forall i, j :: 0 <= i < j < |hs| ==> !MeaningOf(hs[i].name).IsLength? || !MeaningOf(hs[j].name).IsLength?)
  }

  /** The declared length, or the marker of none. */
  function DeclaredLength(hs: seq<Header>): int
    decreases |hs|
  {
    if hs == [] then ULLONG_MAX
    else
      var h := hs[|hs| - 1];
      if MeaningOf(h.name).IsLength? then Decimal(LeadingDigits(h.value)) else DeclaredLength(hs[..|hs| - 1])
  }

  ghost function FlagsMeant(hs: seq<Header>): Flags {
    Flags(IsChunked(hs), Wants(hs, "keep-alive"), Wants(hs, "close"), Wants(hs, "upgrade"), false, IsUpgraded(hs),
          false, HasLengthHeader(hs))
  }

  lemma FlagsMore(hs: seq<Header>, h: Header)
    ensures FlagsMeant(hs + [h]) == NewFlags(MeaningOf(h.name), FlagsMeant(hs), h.value)
    ensures IsCoded(hs + [h]) <==> IsCoded(hs) || "transfer-encoding" <= LowerCase(h.name)
  {
    hide MeaningOf, HasOption, EndsChunked, LowerCase;
    var all := hs + [h];
    assert all[|hs|] == h && forall i :: 0 <= i < |hs| ==> all[i] == hs[i];
  }

  lemma LengthsMore(hs: seq<Header>, h: Header)
    ensures LengthsFit(hs + [h]) <==> LengthsFit(hs) && Takes(MeaningOf(h.name), FlagsMeant(hs), h.value)
    ensures DeclaredLength(hs + [h]) == NewLength(MeaningOf(h.name), DeclaredLength(hs), h.value)
  {
    hide MeaningOf, HasOption, EndsChunked, IsLengthValue, LeadingDigits, LowerCase, Decimal, Wants, IsChunked,
      IsUpgraded;
    var all := hs + [h];
    assert all[..|hs|] == hs && all[|hs|] == h;
    assert forall i :: 0 <= i < |hs| ==> all[i] == hs[i];
  }

  lemma NothingMeant()
    ensures FlagsMeant([]) == NO_FLAGS && !IsCoded([]) && LengthsFit([]) && DeclaredLength([]) == ULLONG_MAX
    ensures HeadersText([]) == [] && HeaderEvents([]) == []
  {
  }

  /** A length that has been declared is never taken for the marker of none. */
  lemma {:induction false} LengthKnown(hs: seq<Header>)
    requires LengthsFit(hs)
    ensures HasLengthHeader(hs) <==> DeclaredLength(hs) != ULLONG_MAX
    ensures 0 <= DeclaredLength(hs) <= ULLONG_MAX
    decreases |hs|
  {
    hide MeaningOf;
    if hs != [] {
      var b, h := hs[..|hs| - 1], hs[|hs| - 1];
      LengthKnown(b);
      if MeaningOf(h.name).IsLength? {
        LengthBelow(h.value);
      } else if HasLengthHeader(hs) {
        var i :| 0 <= i < |hs| && MeaningOf(hs[i].name).IsLength?;
        assert b[i] == hs[i];
      }
    }
  }

  lemma LengthBelow(v: Bytes)
    requires IsLengthValue(v)
    ensures Decimal(LeadingDigits(v)) < ULLONG_MAX
  {
  }

  // ---------- the headers read ----------

  /** A parser at the start of the first header. */
  predicate AwaitsHeaders(s: Sim) {
    && AwaitsHeader(s)
    && s.parser.flags == NO_FLAGS && !s.parser.transferEncoding && s.parser.contentLength == ULLONG_MAX
    && (s.view.log != [] ==> var e := s.view.log[|s.view.log| - 1]; e.Data? ==> !e.kind.FieldKind?)
  }

  /** Behind headers that have been read. */
  ghost predicate Behind(s: Sim, hs: seq<Header>, t: Sim) {
    && AwaitsHeader(t) && t.parser.contentLength == DeclaredLength(hs)
    && t.parser == s.parser.(headerState := t.parser.headerState, index := t.parser.index,
                             nread := s.parser.nread + |HeadersText(hs)|, flags := FlagsMeant(hs),
                             transferEncoding := IsCoded(hs), contentLength := t.parser.contentLength)
    && t.view.log == s.view.log + HeaderEvents(hs) && t.consumed == s.consumed + |HeadersText(hs)|
  }

  ghost predicate HeadersTaken(s: Sim, hs: seq<Header>, r: Sim) {
    if hs == [] then Behind(s, hs, r) else BehindLine(r) && Behind(s, hs, Finished(r))
  }

  lemma TwoEvents(log: Log, h: Header)
    requires log != [] ==> var e := log[|log| - 1]; e.Data? ==> !e.kind.FieldKind?
    ensures Emit(Emit(log, FieldKind, h.name), ValueKind, h.value)
         == log + [Data(FieldKind, h.name), Data(ValueKind, h.value)]
  {
  }

  lemma EventsEnd(log: Log, hs: seq<Header>)
    requires log != [] ==> var e := log[|log| - 1]; e.Data? ==> !e.kind.FieldKind?
    ensures var l := log + HeaderEvents(hs); l != [] ==> var e := l[|l| - 1]; e.Data? ==> !e.kind.FieldKind?
  {
    if hs == [] {
      assert log + HeaderEvents(hs) == log;
    }
  }

  lemma MoreText(hs: seq<Header>, h: Header)
    ensures HeadersText(hs + [h]) == HeadersText(hs) + HeaderText(h)
    ensures HeaderEvents(hs + [h]) == HeaderEvents(hs) + [Data(FieldKind, h.name), Data(ValueKind, h.value)]
  {
    assert (hs + [h])[..|hs|] == hs;
  }

  /** One header more. */
  lemma OneMore(s: Sim, hs: seq<Header>, h: Header, t: Sim, r: Sim)
    requires AwaitsHeaders(s) && Behind(s, hs, t) && HeaderTaken(t, h, r)
    ensures HeadersTaken(s, hs + [h], r)
  {
    hide Emit, FlagsMeant, NewFlags, NewLength, DeclaredLength, HeaderText, HeadersText, IsCoded, LowerCase, MeaningOf,
      HeaderEvents, LengthsFit, BehindLine;
    FlagsMore(hs, h);
    LengthsMore(hs, h);
    MoreText(hs, h);
    EventsEnd(s.view.log, hs);
    TwoEvents(t.view.log, h);
  }

  lemma TextBegins(h: Header)
    requires WellHeader(h)
    ensures HeaderText(h) != [] && !Blank(HeaderText(h)[0])
  {
  }

  /** The headers are read, or one of them is refused. */
  lemma {:induction false} HeadersRead(s: Sim, hs: seq<Header>)
    requires AwaitsHeaders(s) && WellHeaders(hs) && s.parser.nread + |HeadersText(hs)| <= 81920
    ensures var r := Run(s, HeadersText(hs));
            if LengthsFit(hs) then HeadersTaken(s, hs, r) else Refused(r)
    decreases |hs|
  {
    hide Run, StepByte, HeaderText, HeaderTaken, LengthsFit, FlagsMeant, DeclaredLength, IsCoded, HeaderEvents,
      BehindLine, Finished, Takes, WellHeader, Refused, MeaningOf;
    NothingMeant();
    if hs == [] {
      RunNothing(s);
    } else {
      var b, h := hs[..|hs| - 1], hs[|hs| - 1];
      assert b + [h] == hs;
      var t, text := Run(s, HeadersText(b)), HeaderText(h);
      HeadersRead(s, b);
      RunConcat(s, HeadersText(b), text);
      TextBegins(h);
      LengthsMore(b, h);
      if LengthsFit(b) {
        var t' := if b == [] then t else Finished(t);
        if b != [] {
          FinishedCount(t);
          FinishedRun(t, text);
        }
        HeaderRead(t', h);
        if LengthsFit(hs) {
          OneMore(s, b, h, t', Run(t', text));
        }
      } else {
        RefusedFor(t, text);
      }
    }
  }

  lemma FinishedCount(t: Sim)
    ensures Finished(t).parser.nread == t.parser.nread
  {
  }

  lemma RefusedFor(t: Sim, text: Bytes)
    requires Refused(t) && text != [] && !Blank(text[0])
    ensures Run(t, text).parser.errno != OK && Refused(Run(t, text))
  {
    hide Run, StepByte, Blank;
    assert text == [text[0]] + text[1..];
    RunConcat(t, [text[0]], text[1..]);
    RunOne(t, text[0]);
    RefusedByte(t, text[0]);
    HaltedStays(Run(t, [text[0]]), text[1..]);
  }
}
