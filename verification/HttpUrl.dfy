/** Splitting a URL into its fields. */
module HttpUrl {
  import opened HttpTypes
  import opened HttpUrlChar
  import opened HttpUrlFields
  import opened HttpUrlText

  // ---------- the splitter ----------

  lemma UrlBegins(start: State)
    ensures UrlState(start, []) == start && UrlLabels(start, []) == [] && !SawAt(start, []) && Covers(map[], 0, [])
  {
  }

  /** One more byte of the URL: a field that has begun goes on without a gap. */
  lemma UrlNext(start: State, bytes: Bytes, ch: Byte)
    requires start.SpacesBeforeUrl? || start.ServerStart?
    requires !UrlState(start, bytes + [ch]).Dead?
    ensures var s := UrlState(start, bytes + [ch]);
            && s == ParseUrlChar(UrlState(start, bytes), ch)
            && UrlLabels(start, bytes + [ch]) == UrlLabels(start, bytes) + [LabelOf(s)]
            && SawAt(start, bytes + [ch]) == (SawAt(start, bytes) || s.ServerWithAt?)
            && (LabelOf(s).In? && LabelOf(s) in UrlLabels(start, bytes) ==>
                  UrlLabels(start, bytes)[|bytes| - 1] == LabelOf(s))
  {
    hide ParseUrlChar;
    assert (bytes + [ch])[..|bytes|] == bytes;
    DeadStays(UrlState(start, bytes), ch);
    UrlOrdered(start, bytes);
    UrlOrdered(start, bytes + [ch]);
    RankGrows(UrlState(start, bytes), ch);
  }

  lemma LastHostLabel(start: HostState, bytes: Bytes)
    requires start.UserInfoStart? || start.HostStart?
    ensures bytes != [] ==> HostLabels(start, bytes)[|bytes| - 1] == HostLabelOf(HostStateOf(start, bytes))
    ensures bytes == [] ==> HostLabelOf(HostStateOf(start, bytes)) == Delimiter
  {
  }

  /** One more byte of the server part: a field that has begun goes on without a gap. */
  lemma HostNext(start: HostState, bytes: Bytes, ch: Byte)
    requires start.UserInfoStart? || start.HostStart?
    requires !HostStateOf(start, bytes + [ch]).HostDead?
    ensures var s := HostStateOf(start, bytes + [ch]);
            && s == ParseHostChar(HostStateOf(start, bytes), ch)
            && HostLabels(start, bytes + [ch]) == HostLabels(start, bytes) + [HostLabelOf(s)]
            && (HostLabelOf(s).In? ==>
                  (HostLabelOf(s) in HostLabels(start, bytes) <==>
                        HostLabelOf(HostStateOf(start, bytes)) == HostLabelOf(s)))
            && (HostLabelOf(s).In? && HostLabelOf(s) in HostLabels(start, bytes) ==>
                  HostLabels(start, bytes)[|bytes| - 1] == HostLabelOf(s))
  {
    hide ParseHostChar, HostRank, HostLabelOf, HostFieldRank;
    assert (bytes + [ch])[..|bytes|] == bytes;
    LastHostLabel(start, bytes);
    HostDeadStays(HostStateOf(start, bytes), ch);
    HostOrdered(start, bytes);
    HostRankGrows(HostStateOf(start, bytes), ch);
    HostLabelRank(HostStateOf(start, bytes + [ch]));
  }

  lemma {:induction false} HostDeadForEver(start: HostState, bytes: Bytes, k: nat)
    requires k <= |bytes| && HostStateOf(start, bytes[..k]).HostDead?
    ensures HostStateOf(start, bytes).HostDead?
    decreases |bytes| - k
  {
    hide ParseHostChar;
    if k < |bytes| {
      assert bytes[..k + 1][..k] == bytes[..k];
      HostDeadStays(HostStateOf(start, bytes[..k]), bytes[k]);
      HostDeadForEver(start, bytes, k + 1);
    } else {
      assert bytes[..k] == bytes;
    }
  }

  lemma HostBegins(buf: Bytes, from: nat, start: HostState, fields: Fields)
    requires from <= |buf|
    requires forall f :: f in fields && OfServer(f) ==> fields[f].len == 0
    ensures HostStateOf(start, buf[from..from]) == start
    ensures Covers(ServerFields(fields), from, HostLabels(start, buf[from..from]))
  {
  }

  /** The fields of the server part among the fields; the host counts once it has a length. */
  function ServerFields(fields: Fields): Fields {
    map f | f in fields && OfServer(f) && fields[f].len > 0 :: fields[f]
  }

  lemma HostSlice(start: HostState, buf: Bytes, from: nat, p: nat, end: nat)
    requires from <= p < end <= |buf|
    ensures buf[from..p + 1] == buf[from..p] + [buf[p]] == buf[from..end][..p + 1 - from]
    ensures HostStateOf(start, buf[from..p + 1]) == ParseHostChar(HostStateOf(start, buf[from..p]), buf[p])
  {
    assert buf[from..p + 1][..p - from] == buf[from..p];
  }

  lemma HostPresent(fields: Fields, from: nat, start: HostState, whole: Bytes)
    requires start.UserInfoStart? || start.HostStart?
    requires Covers(ServerFields(fields), from, HostLabels(start, whole)) && Host in fields
    ensures HostMayEnd(HostStateOf(start, whole)) ==> fields[Host].len > 0
    ensures HostStateOf(start, whole).HostDead? ==> !HostMayEnd(HostStateOf(start, whole))
  {
    HostNotEmpty(start, whole);
    Present(ServerFields(fields), from, HostLabels(start, whole), Host);
  }

  /** The URL machine is alive in state `s` after `bytes`, and the fields set are those it has seen, `oldField` last. */
  ghost predicate UrlSoFar(fields: Fields, start: State, bytes: Bytes, s: State, foundAt: bool, oldField: Label) {
    var labels := UrlLabels(start, bytes);
    && s == UrlState(start, bytes) && !s.Dead? && foundAt == SawAt(start, bytes)
    && Covers(fields, 0, labels)
    && (labels != [] && labels[|labels| - 1].In? ==> oldField == labels[|labels| - 1])
    && (oldField.In? ==> oldField in labels)
  }

  lemma UrlSoFarFirst(start: State, buf: Bytes)
    requires start.SpacesBeforeUrl? || start.ServerStart?
    ensures UrlSoFar(map[], start, buf[..0], start, false, Delimiter)
  {
    assert buf[..0] == [];
    UrlBegins(start);
  }

  lemma UrlSoFarLast(fields: Fields, start: State, buf: Bytes, s: State, foundAt: bool, oldField: Label)
    requires UrlSoFar(fields, start, buf[..|buf|], s, foundAt, oldField)
    ensures !UrlState(start, buf).Dead? && foundAt == SawAt(start, buf) && Covers(fields, 0, UrlLabels(start, buf))
  {
    assert buf[..|buf|] == buf;
  }

  /** The host machine is alive in state `s` after `bytes`, and the fields set are those it has seen. */
  ghost predicate HostSoFar(fields: Fields, from: nat, start: HostState, bytes: Bytes, s: HostState) {
    && s == HostStateOf(start, bytes) && !s.HostDead?
    && Host in fields && (forall f :: f in fields && f in {UserInfo, Port} ==> fields[f].len > 0)
    && Covers(ServerFields(fields), from, HostLabels(start, bytes))
  }

  lemma HostSoFarFirst(buf: Bytes, from: nat, start: HostState, fields: Fields)
    requires from <= |buf| && (start.UserInfoStart? || start.HostStart?)
    requires Host in fields && fields[Host].len == 0 && UserInfo !in fields && Port !in fields
    ensures HostSoFar(fields, from, start, buf[from..from], start)
  {
    HostBegins(buf, from, start, fields);
    hide HostLabels, HostStateOf, Covers, ServerFields;
  }

  lemma HostSoFarLast(fields: Fields, from: nat, start: HostState, whole: Bytes, s: HostState)
    requires (start.UserInfoStart? || start.HostStart?) && HostSoFar(fields, from, start, whole, s)
    ensures s == HostStateOf(start, whole) && Covers(ServerFields(fields), from, HostLabels(start, whole))
    ensures Host in fields && (forall f :: f in fields && f in {UserInfo, Port} ==> fields[f].len > 0)
    ensures HostMayEnd(s) ==> fields[Host].len > 0
  {
    hide HostLabels, HostStateOf, Covers, ServerFields, HostMayEnd;
    HostPresent(fields, from, start, whole);
  }

  lemma HostDies(start: HostState, buf: Bytes, from: nat, p: nat, end: nat, fields: Fields, s: HostState)
    requires (start.UserInfoStart? || start.HostStart?) && from <= p < end <= |buf|
    requires HostSoFar(fields, from, start, buf[from..p], s) && ParseHostChar(s, buf[p]).HostDead?
    ensures !HostMayEnd(HostStateOf(start, buf[from..end]))
  {
    hide HostLabels, HostStateOf, ParseHostChar;
    HostSlice(start, buf, from, p, end);
    HostDeadForEver(start, buf[from..end], p + 1 - from);
  }

  class ParsedUrl {
    var fields: Fields
    var port: nat

    constructor ()
      ensures fields == map[] && port == 0
    {
      fields, port := map[], 0;
    }

    /** One byte of the server part, unless the host dies of it. */
    method ReadHost(buf: Bytes, p: nat, s: HostState, ghost from: nat, ghost start: HostState) returns (t: HostState)
      requires start.UserInfoStart? || start.HostStart?
      requires from <= p < |buf| && HostSoFar(fields, from, start, buf[from..p], s)
      modifies this`fields
      ensures t == ParseHostChar(s, buf[p])
      ensures SameOutside(fields, old(fields))
      ensures !t.HostDead? ==> HostSoFar(fields, from, start, buf[from..p + 1], t)
    {
      hide HostLabels, HostStateOf, Covers, ServerFields, ParseHostChar;
      HostSlice(start, buf, from, p, p + 1);
      t := ParseHostChar(s, buf[p]);
      if !t.HostDead? {
        HostNext(start, buf[from..p], buf[p]);
        Advance(s, t, p, from, HostLabels(start, buf[from..p]), buf[p]);
      }
    }

    /** Splits the server part; the fields of the other parts stay. */
    method ParseHost(buf: Bytes, foundAt: bool) returns (failed: bool)
      requires Host in fields && UserInfo !in fields && Port !in fields
      requires fields[Host].len > 0 && fields[Host].off + fields[Host].len <= |buf|
      modifies this`fields
      ensures var server := old(fields[Host]);
              var bytes, start := buf[server.off..server.off + server.len], HostStartOf(foundAt);
              && (failed <==> !HostMayEnd(HostStateOf(start, bytes)))
              && (!failed ==>
                    && Covers(ServerFields(fields), server.off, HostLabels(start, bytes))
                    && Host in fields && fields[Host].len > 0
                    && (forall f :: f in fields && f in {UserInfo, Port} ==> fields[f].len > 0)
                    && SameOutside(fields, old(fields)))
    {
      hide HostLabels, HostStateOf, Covers, ServerFields, HostMayEnd, ParseHostChar, HostSoFar;
      ghost var from := fields[Host].off;
      var p, end := fields[Host].off, fields[Host].off + fields[Host].len;
      var s := HostStartOf(foundAt);
      ghost var start := s;
      fields := fields[Host := Span(fields[Host].off, 0)];
      HostSoFarFirst(buf, from, start, fields);
      while p < end
        invariant from <= p <= end && HostSoFar(fields, from, start, buf[from..p], s)
        invariant SameOutside(fields, old(fields))
      {
        ghost var was := fields;
        var t := ReadHost(buf, p, s, from, start);
        if t.HostDead? {
          HostDies(start, buf, from, p, end, was, s);
          return true;
        }
        s, p := t, p + 1;
      }
      HostSoFarLast(fields, from, start, buf[from..end], s);
      return !HostMayEnd(s);
    }

    /** A byte more of a field of the server part, which begins here or goes on. */
    method Extend(f: Field, begins: bool, p: nat, ghost from: nat, ghost labels: seq<Label>)
      requires OfServer(f) && p == from + |labels|
      requires Covers(ServerFields(fields), from, labels)
      requires if begins then In(f) !in labels else labels != [] && labels[|labels| - 1] == In(f)
      modifies this`fields
      ensures SameOutside(fields, old(fields))
      ensures f in fields && fields[f].len > 0
      ensures forall g :: g != f ==>
          (g in fields <==> g in old(fields)) && (g in fields ==> fields[g] == old(fields)[g])
      ensures Covers(ServerFields(fields), from, labels + [In(f)])
    {
      ghost var was := ServerFields(fields);
      if begins {
        Present(was, from, labels, f);
        CoversNew(was, from, labels, f);
        fields := fields[f := Span(p, 1)];
        assert ServerFields(fields) == was[f := Span(p, 1)];
      } else {
        CoversGrow(was, from, labels, f);
        fields := fields[f := Span(fields[f].off, fields[f].len + 1)];
        assert ServerFields(fields) == was[f := Span(was[f].off, was[f].len + 1)];
      }
    }

    /** One byte of the server part, from state `s` to state `t`. */
    method Advance(s: HostState, t: HostState, p: nat, ghost from: nat, ghost labels: seq<Label>, ghost ch: Byte)
      requires Host in fields && forall f :: f in fields && f in {UserInfo, Port} ==> fields[f].len > 0
      requires Covers(ServerFields(fields), from, labels) && p == from + |labels|
      requires !t.HostDead? && t == ParseHostChar(s, ch)
      requires HostLabelOf(t).In? ==> (HostLabelOf(t) in labels <==> HostLabelOf(s) == HostLabelOf(t))
      requires HostLabelOf(t).In? && HostLabelOf(t) in labels ==> labels[|labels| - 1] == HostLabelOf(t)
      modifies this`fields
      ensures SameOutside(fields, old(fields))
      ensures Host in fields && forall f :: f in fields && f in {UserInfo, Port} ==> fields[f].len > 0
      ensures Covers(ServerFields(fields), from, labels + [HostLabelOf(t)])
    {
      match t
      case InHost => Extend(Host, !s.InHost?, p, from, labels);
      case V6 => Extend(Host, !s.V6?, p, from, labels);
      case V6ZoneStart | V6Zone => Extend(Host, false, p, from, labels);
      case InPort => Extend(Port, !s.InPort?, p, from, labels);
      case InUserInfo => Extend(UserInfo, !s.InUserInfo?, p, from, labels);
      case _ => CoversDelimiter(ServerFields(fields), from, labels);
    }

    /** A byte more of a field, which goes on or begins here. */
    method Label(f: Field, goesOn: bool, p: nat, ghost labels: seq<Label>)
      requires Covers(fields, 0, labels) && p == |labels|
      requires if goesOn then labels != [] && labels[|labels| - 1] == In(f) else In(f) !in labels
      modifies this`fields
      ensures Covers(fields, 0, labels + [In(f)])
    {
      if goesOn {
        CoversGrow(fields, 0, labels, f);
        fields := fields[f := Span(fields[f].off, fields[f].len + 1)];
      } else {
        CoversNew(fields, 0, labels, f);
        fields := fields[f := Span(p, 1)];
      }
    }

    /** One byte of the URL, unless it dies of it. */
    method ReadUrl(ch: Byte, p: nat, s: State, foundAt: bool, oldField: Label, ghost start: State, ghost bytes: Bytes)
      returns (t: State, found: bool, field: Label)
      requires start.SpacesBeforeUrl? || start.ServerStart?
      requires p == |bytes| && UrlSoFar(fields, start, bytes, s, foundAt, oldField)
      modifies this`fields
      ensures t == UrlState(start, bytes + [ch])
      ensures !t.Dead? ==> UrlSoFar(fields, start, bytes + [ch], t, found, field)
    {
      hide UrlState, UrlLabels, SawAt, Covers, ParseUrlChar, LabelOf;
      t, found, field := ParseUrlChar(s, ch), foundAt, oldField;
      UrlStateNext(start, bytes, ch);
      if !t.Dead? {
        UrlNext(start, bytes, ch);
        found := foundAt || t.ServerWithAt?;
        match LabelOf(t)
        case Delimiter => CoversDelimiter(fields, 0, UrlLabels(start, bytes));
        case In(f) =>
          Label(f, LabelOf(t) == oldField, p, UrlLabels(start, bytes));
          field := LabelOf(t);
      }
    }

    /** The first pass: the fields by the states of the URL, the server part as one field. */
    method Split(buf: Bytes, isConnect: bool) returns (failed: bool, foundAt: bool)
      modifies this`fields
      ensures var start := StartState(isConnect);
              && (failed <==> UrlState(start, buf).Dead?)
              && (!failed ==> Covers(fields, 0, UrlLabels(start, buf)) && foundAt == SawAt(start, buf))
      ensures failed <==> !Fits(isConnect, buf)
      ensures !failed ==>
                OuterParts(isConnect, buf, fields) && foundAt == ServerCutOf(ServerText(isConnect, buf)).hasUser
    {
      hide UrlState, UrlLabels, SawAt, Covers, UrlSoFar, Fits, CutOf, OuterParts, ServerCutOf, ServerText;
      SplitIs(isConnect, buf);
      var s := StartState(isConnect);
      ghost var start := s;
      var oldField := Delimiter;
      fields, foundAt := map[], false;
      UrlSoFarFirst(start, buf);
      for p := 0 to |buf|
        invariant UrlSoFar(fields, start, buf[..p], s, foundAt, oldField)
      {
        assert buf[..p + 1] == buf[..p] + [buf[p]];
        s, foundAt, oldField := ReadUrl(buf[p], p, s, foundAt, oldField, start, buf[..p]);
        if s.Dead? {
          DeadForEver(start, buf, p + 1);
          return true, foundAt;
        }
      }
      UrlSoFarLast(fields, start, buf, s, foundAt, oldField);
      SplitFields(isConnect, buf, fields);
      SawAtIsThere(isConnect, buf);
      failed := false;
    }

    /** The value of a run of digits, unless it exceeds 16 bits. */
    method ReadPort(buf: Bytes, sp: Span) returns (failed: bool)
      requires sp.off + sp.len <= |buf| && AllNum(buf[sp.off..sp.off + sp.len])
      modifies this`port
      ensures failed <==> Decimal(buf[sp.off..sp.off + sp.len]) > 0xffff
      ensures !failed ==> port == Decimal(buf[sp.off..sp.off + sp.len])
    {
      hide AllNum, Decimal;
      var v, p, end := 0, sp.off, sp.off + sp.len;
      NoDigits();
      assert buf[sp.off..sp.off] == [];
      while p < end
        invariant sp.off <= p <= end
        invariant AllNum(buf[sp.off..p]) && v == Decimal(buf[sp.off..p]) && v <= 0xffff
      {
        OneDigit(buf, sp.off, p, end);
        v := v * 10 + (buf[p] as int - '0' as int);
        p := p + 1;
        if v > 0xffff {
          return true;
        }
      }
      port := v;
      return false;
    }

    /**
     * A URL is accepted exactly if it is well-formed, and then the fields that are set are its parts that have bytes,
     * each with exactly its place, in their order and apart from each other, and the port is the value of its digits.
     */
    method ParseUrl(buf: Bytes, isConnect: bool) returns (failed: bool)
      requires |buf| < 0x10000
      modifies this
      ensures failed <==> !WellUrl(isConnect, buf)
      ensures !failed ==> Parts(isConnect, buf, fields) && InOrder(fields, |buf|) && RightPort(buf, fields, port)
    {
      hide WellUrl, Parts, Accepted, RightFields, RightPort, InOrder;
      ghost var server;
      failed, server := ReadFields(buf, isConnect);
      AcceptedIsWell(isConnect, buf);
      if !failed {
        InTheirOrder(isConnect, buf, fields, server);
        FieldsAreParts(isConnect, buf, fields, server);
      }
    }

    /** Both passes and the port, by the states of the URL and of the host. */
    method ReadFields(buf: Bytes, isConnect: bool) returns (failed: bool, ghost server: Span)
      requires |buf| < 0x10000
      modifies this
      ensures failed <==> !Accepted(isConnect, buf)
      ensures !failed ==> RightFields(isConnect, buf, fields, server) && RightPort(buf, fields, port)
    {
      server := Span(0, 0);
      if |buf| == 0 {
        return true, server;
      }
      port := 0;
      hide Fits, OuterParts, ServerCutOf, ServerText, UrlState, UrlLabels, HostLabels, HostStateOf, Select, Ordered,
        SawAt, Spans, InOrder, Decimal, AllNum, ServerLabels, ServerPart, ServerEnds, PortFits, RightPort, RightFields,
        Covers, ServerFieldsOf;
      var foundAt;
      failed, foundAt := Split(buf, isConnect);
      if failed {
        return;
      }
      ghost var first := fields;
      FirstPass(isConnect, buf, first);
      assert SchemaField in first <==> In(SchemaField) in UrlLabels(StartState(isConnect), buf);
      assert Host in first <==> In(Host) in UrlLabels(StartState(isConnect), buf);
      hide FirstFields;
      if SchemaField in fields && Host !in fields {
        return true, server;
      }
      failed, server := SplitServer(buf, isConnect, foundAt);
      if failed {
        return;
      }
      OnlyHostAndPort(isConnect, buf, first, fields);
      if isConnect && fields.Keys != {Host, Port} {
        return true, server;
      }
      failed := SplitPort(buf, isConnect, server);
    }

    /** The second pass, if there is a server part. */
    method SplitServer(buf: Bytes, isConnect: bool, foundAt: bool) returns (failed: bool, ghost server: Span)
      requires FirstFields(isConnect, buf, fields) && foundAt == SawAt(StartState(isConnect), buf)
      modifies this`fields
      ensures failed <==> Host in old(fields) && !ServerEnds(isConnect, buf)
      ensures !failed ==>
                RightFields(isConnect, buf, fields, server) && ServerFieldsOf(isConnect, buf, old(fields), fields)
    {
      hide UrlState, UrlLabels, HostLabels, HostStateOf, Select, Ordered, SawAt, Spans, InOrder, ServerLabels,
          ServerPart, Joined, RightFields;
      ghost var first := fields;
      server, failed := Span(0, 0), false;
      if Host in fields {
        server := fields[Host];
        ServerIs(isConnect, buf, server);
        failed := ParseHost(buf, foundAt);
        if failed {
          return;
        }
        SecondPass(isConnect, buf, first, fields);
        JoinedFields(isConnect, buf, first, fields);
      }
      Assembled(isConnect, buf, first, fields, server);
    }

    method SplitPort(buf: Bytes, isConnect: bool, ghost server: Span) returns (failed: bool)
      requires RightFields(isConnect, buf, fields, server) && port == 0
      modifies this`port
      ensures failed <==> In(Host) in UrlLabels(StartState(isConnect), buf) && !PortFits(isConnect, buf)
      ensures !failed ==> RightPort(buf, fields, port)
    {
      hide UrlState, UrlLabels, HostLabels, HostStateOf, Select, Ordered, SawAt, Spans, InOrder, Decimal, AllNum,
          ServerLabels, ServerPart;
      failed := false;
      if Port in fields {
        ServerIs(isConnect, buf, server);
        PortIs(isConnect, buf, server, fields[Port]);
        failed := ReadPort(buf, fields[Port]);
      } else if In(Host) in UrlLabels(StartState(isConnect), buf) {
        SelectNone(ServerPart(isConnect, buf), ServerLabels(isConnect, buf), Port);
        NoDigits();
      }
    }
  }

  /** A digit more of a run of digits. */
  lemma OneDigit(buf: Bytes, from: nat, p: nat, end: nat)
    requires from <= p < end <= |buf| && AllNum(buf[from..end])
    ensures '0' <= buf[p] <= '9' && AllNum(buf[from..p]) && AllNum(buf[from..p + 1])
    ensures Decimal(buf[from..p + 1]) == Decimal(buf[from..p]) * 10 + (buf[p] as int - '0' as int)
    ensures Decimal(buf[from..p + 1]) <= Decimal(buf[from..end])
  {
    hide Decimal;
    var digits := buf[from..end];
    assert digits[..p - from] == buf[from..p] && digits[..p + 1 - from] == buf[from..p + 1];
    assert digits[p - from] == buf[p];
    DecimalPrefix(digits, p + 1 - from);
    DecimalOne(buf[from..p], buf[p]);
    assert buf[from..p + 1] == buf[from..p] + [buf[p]];
  }

  lemma DecimalOne(digits: Bytes, c: Byte)
    requires AllNum(digits) && IsNum(c)
    ensures AllNum(digits + [c]) && Decimal(digits + [c]) == Decimal(digits) * 10 + (c as int - '0' as int)
  {
    assert (digits + [c])[..|digits|] == digits;
  }

  lemma InTheirOrder(isConnect: bool, buf: Bytes, fields: Fields, server: Span)
    requires RightFields(isConnect, buf, fields, server)
    ensures InOrder(fields, |buf|)
  {
  }

  lemma NoDigits()
    ensures AllNum([]) && Decimal([]) == 0
  {
  }

  /** The first pass, field by field. */
  predicate FirstFields(isConnect: bool, buf: Bytes, first: Fields) {
    var labels := UrlLabels(StartState(isConnect), buf);
    && InOrder(first, |buf|) && UserInfo !in first && Port !in first
    && (forall f :: f in first <==> In(f) in labels)
    && (forall f :: f in first ==> Spans(first[f], 0, labels, f))
    && (Host in first ==> first[Host].len > 0 && first[Host].off + first[Host].len <= |buf|)
  }

  /** Which fields there are after the second pass. */
  predicate ServerFieldsOf(isConnect: bool, buf: Bytes, first: Fields, fields: Fields) {
    && (Host !in first ==> fields == first)
    && (Host in first ==>
          && Host in fields
          && forall f :: if OfServer(f) then f in fields <==> In(f) in ServerLabels(isConnect, buf)
                         else f in fields <==> f in first)
  }

  lemma FirstPass(isConnect: bool, buf: Bytes, first: Fields)
    requires var start := StartState(isConnect);
             !UrlState(start, buf).Dead? && Covers(first, 0, UrlLabels(start, buf))
    ensures FirstFields(isConnect, buf, first)
  {
    var start := StartState(isConnect);
    var labels := UrlLabels(start, buf);
    UrlOrdered(start, buf);
    OrderedFields(first, 0, labels);
    forall f: Field ensures f in first <==> In(f) in labels {
      Present(first, 0, labels, f);
    }
  }

  /** The server part is the text of the host of the first pass. */
  lemma ServerIs(isConnect: bool, buf: Bytes, server: Span)
    requires Spans(server, 0, UrlLabels(StartState(isConnect), buf), Host)
    ensures server.off + server.len <= |buf|
    ensures ServerPart(isConnect, buf) == buf[server.off..server.off + server.len]
    ensures ServerLabels(isConnect, buf)
        == HostLabels(HostStartOf(SawAt(StartState(isConnect), buf)), ServerPart(isConnect, buf))
  {
    hide UrlLabels, UrlState, Select, SawAt, Spans, HostLabels;
    var labels := UrlLabels(StartState(isConnect), buf);
    WholeSpan(buf, labels, Host, server);
    InSpan(server, labels, Host);
  }

  /** The fields that are not of the server part are the same. */
  predicate SameOutside(fields: Fields, first: Fields) {
    fields - {UserInfo, Host, Port} == first - {UserInfo, Host, Port}
  }

  /** Both passes together: the fields of the server part in place of it. */
  lemma SecondPass(isConnect: bool, buf: Bytes, first: Fields, fields: Fields)
    requires InOrder(first, |buf|) && UserInfo !in first && Port !in first && Host in first
    requires |ServerPart(isConnect, buf)| == first[Host].len
    requires !HostStateOf(HostStartOf(SawAt(StartState(isConnect), buf)), ServerPart(isConnect, buf)).HostDead?
    requires Covers(ServerFields(fields), first[Host].off, ServerLabels(isConnect, buf))
    requires Host in fields && forall f :: f in fields && OfServer(f) ==> fields[f].len > 0
    requires SameOutside(fields, first)
    ensures Joined(first, fields, ServerLabels(isConnect, buf), |buf|)
  {
    hide InOrder, Spans, Covers, ServerFields, HostStateOf, ServerPart, ServerLabels, SawAt, SameOutside, Joined;
    InnerInOrder(isConnect, buf, fields, first[Host].off);
    BothPasses(first, fields, ServerLabels(isConnect, buf), |buf|);
  }

  /** The fields of the server part have taken the place of the host of the first pass. */
  predicate Joined(first: Fields, fields: Fields, labels: seq<Label>, n: nat) {
    && Host in first && InOrder(fields, n)
    && (forall f :: OfServer(f) ==>
          && (f in fields <==> In(f) in labels)
          && (f in fields ==> Spans(fields[f], first[Host].off, labels, f)))
    && (forall f :: !OfServer(f) ==>
          (f in fields <==> f in first) && (f in fields ==> fields[f] == first[f]))
  }

  lemma BothPasses(first: Fields, fields: Fields, labels: seq<Label>, n: nat)
    requires InOrder(first, n) && UserInfo !in first && Port !in first && Host in first
    requires |labels| == first[Host].len
    requires Covers(ServerFields(fields), first[Host].off, labels)
    requires InOrder(ServerFields(fields), first[Host].off + first[Host].len)
    requires forall f :: f in fields && OfServer(f) ==> fields[f].len > 0
    requires SameOutside(fields, first)
    ensures Joined(first, fields, labels, n)
  {
    hide InOrder, Spans, Covers, ServerFields, SameOutside;
    var from, inner := first[Host].off, ServerFields(fields);
    forall f
      ensures f in inner ==> OfServer(f) && from <= inner[f].off
      ensures OfServer(f) ==>
                && (f in fields <==> f in inner) && (f in fields ==> fields[f] == inner[f])
                && (f in fields <==> In(f) in labels) && (f in fields ==> Spans(fields[f], from, labels, f))
      ensures !OfServer(f) ==> (f in fields <==> f in first) && (f in fields ==> fields[f] == first[f])
    {
      Present(inner, from, labels, f);
      Outside(fields, first, f);
      InnerField(fields, from, labels, f);
    }
    Nested(first, inner, fields, n);
  }

  lemma InnerInOrder(isConnect: bool, buf: Bytes, fields: Fields, from: nat)
    requires !HostStateOf(HostStartOf(SawAt(StartState(isConnect), buf)), ServerPart(isConnect, buf)).HostDead?
    requires Covers(ServerFields(fields), from, ServerLabels(isConnect, buf))
    ensures InOrder(ServerFields(fields), from + |ServerPart(isConnect, buf)|)
  {
    hide InOrder, Covers, Ordered, ServerFields, HostStateOf, HostLabels, ServerPart, SawAt;
    HostOrdered(HostStartOf(SawAt(StartState(isConnect), buf)), ServerPart(isConnect, buf));
    OrderedFields(ServerFields(fields), from, ServerLabels(isConnect, buf));
  }

  lemma InnerField(fields: Fields, from: nat, labels: seq<Label>, f: Field)
    requires Covers(ServerFields(fields), from, labels)
    requires forall g :: g in fields && OfServer(g) ==> fields[g].len > 0
    ensures var inner := ServerFields(fields);
            && (f in inner ==> OfServer(f) && from <= inner[f].off)
            && (OfServer(f) ==> (f in fields <==> f in inner) && (f in fields ==> fields[f] == inner[f]))
            && (f in fields && OfServer(f) ==> Spans(fields[f], from, labels, f))
  {
  }

  /** What the two passes found is right. */
  lemma Assembled(isConnect: bool, buf: Bytes, first: Fields, fields: Fields, server: Span)
    requires InOrder(first, |buf|) && UserInfo !in first && Port !in first
    requires var labels := UrlLabels(StartState(isConnect), buf);
             (forall f :: f in first <==> In(f) in labels) && (forall f :: f in first ==> Spans(first[f], 0, labels, f))
    requires Host !in first ==> fields == first
    requires Host in first ==>
        server == first[Host] && Joined(first, fields, ServerLabels(isConnect, buf), |buf|) && Host in fields
    ensures RightFields(isConnect, buf, fields, server)
  {
    hide InOrder, UrlLabels, ServerLabels, Spans;
  }

  lemma JoinedFields(isConnect: bool, buf: Bytes, first: Fields, fields: Fields)
    requires Host in fields && Joined(first, fields, ServerLabels(isConnect, buf), |buf|)
    ensures ServerFieldsOf(isConnect, buf, first, fields)
  {
    hide InOrder, ServerLabels, Spans;
  }

  lemma Outside(fields: Fields, first: Fields, f: Field)
    requires SameOutside(fields, first)
    ensures !OfServer(f) ==> (f in fields <==> f in first) && (f in fields ==> fields[f] == first[f])
  {
    if !OfServer(f) {
      assert f in fields <==> f in fields - {UserInfo, Host, Port};
      assert f in first <==> f in first - {UserInfo, Host, Port};
    }
    if f in fields && !OfServer(f) {
      assert (fields - {UserInfo, Host, Port})[f] == fields[f];
      assert (first - {UserInfo, Host, Port})[f] == first[f];
    }
  }

  /** Fields within the span of another, in place of it, keep the order. */
  lemma Nested(first: Fields, inner: Fields, fields: Fields, n: nat)
    requires InOrder(first, n) && Host in first && UserInfo !in first && Port !in first
    requires InOrder(inner, first[Host].off + first[Host].len)
    requires forall f :: f in inner ==> OfServer(f) && first[Host].off <= inner[f].off
    requires forall f :: OfServer(f) ==>
        (f in fields <==> f in inner) && (f in fields ==> fields[f] == inner[f])
    requires forall f :: !OfServer(f) ==>
        (f in fields <==> f in first) && (f in fields ==> fields[f] == first[f])
    ensures InOrder(fields, n)
  {
    forall f, g | f in fields && g in fields && Place(f) < Place(g)
      ensures fields[f].off + fields[f].len <= fields[g].off
    {
      NestedPair(first, inner, fields, n, f, g);
    }
    forall f | f in fields ensures fields[f].len > 0 && fields[f].off + fields[f].len <= n {
      hide InOrder;
      OrderOf(first, n, Host, f);
      OrderOf(inner, first[Host].off + first[Host].len, f, f);
    }
  }

  lemma NestedPair(first: Fields, inner: Fields, fields: Fields, n: nat, f: Field, g: Field)
    requires InOrder(first, n) && Host in first && UserInfo !in first && Port !in first
    requires InOrder(inner, first[Host].off + first[Host].len)
    requires forall f :: f in inner ==> OfServer(f) && first[Host].off <= inner[f].off
    requires forall f :: OfServer(f) ==>
        (f in fields <==> f in inner) && (f in fields ==> fields[f] == inner[f])
    requires forall f :: !OfServer(f) ==>
        (f in fields <==> f in first) && (f in fields ==> fields[f] == first[f])
    requires f in fields && g in fields && Place(f) < Place(g)
    ensures fields[f].off + fields[f].len <= fields[g].off
  {
    hide InOrder;
    OrderOf(first, n, if OfServer(f) then Host else f, if OfServer(g) then Host else g);
    OrderOf(inner, first[Host].off + first[Host].len, f, g);
  }

  lemma OrderOf(fields: Fields, n: nat, f: Field, g: Field)
    requires InOrder(fields, n)
    ensures f in fields && g in fields && Place(f) < Place(g) ==> fields[f].off + fields[f].len <= fields[g].off
    ensures f in fields ==> fields[f].len > 0 && fields[f].off + fields[f].len <= n
    ensures g in fields ==> fields[g].len > 0 && fields[g].off + fields[g].len <= n
  {
  }

  lemma OnlyHostAndPort(isConnect: bool, buf: Bytes, first: Fields, fields: Fields)
    requires FirstFields(isConnect, buf, first) && ServerFieldsOf(isConnect, buf, first, fields)
    ensures var labels, server := UrlLabels(StartState(isConnect), buf), ServerLabels(isConnect, buf);
            fields.Keys == {Host, Port} <==>
            && In(Host) in labels && In(Port) in server && In(UserInfo) !in server
            && forall i :: 0 <= i < |labels| && labels[i].In? ==> labels[i].field == Host
  {
    var labels, server := UrlLabels(StartState(isConnect), buf), ServerLabels(isConnect, buf);
    hide UrlLabels, ServerLabels, InOrder, Spans;
    if fields.Keys == {Host, Port} {
      assert Port in fields && UserInfo !in fields;
      forall i | 0 <= i < |labels| && labels[i].In? ensures labels[i].field == Host {
        assert In(labels[i].field) in labels;
        assert labels[i].field in first;
        assert labels[i].field in fields;
      }
    } else if Host in first && In(Port) in server && In(UserInfo) !in server {
      var f: Field :| (f in fields) != (f in {Host, Port});
      assert f in first;
      assert In(f) in labels;
    }
  }

  /** The text of the port consists of digits, and is the part of the server labelled as the port. */
  lemma PortIs(isConnect: bool, buf: Bytes, server: Span, sp: Span)
    requires server.off + server.len <= |buf|
    requires ServerPart(isConnect, buf) == buf[server.off..server.off + server.len]
    requires Spans(sp, server.off, ServerLabels(isConnect, buf), Port)
    ensures sp.off + sp.len <= |buf|
    ensures Select(ServerPart(isConnect, buf), ServerLabels(isConnect, buf), Port) == buf[sp.off..sp.off + sp.len]
    ensures AllNum(buf[sp.off..sp.off + sp.len])
  {
    var labels := ServerLabels(isConnect, buf);
    SelectSpan(buf, server.off, labels, Port, sp);
    PortDigits(HostStartOf(SawAt(StartState(isConnect), buf)), ServerPart(isConnect, buf));
    var text := buf[sp.off..sp.off + sp.len];
    forall i | 0 <= i < |text| ensures IsNum(text[i]) {
      var k := sp.off + i - server.off;
      assert labels[k] == In(Port);
      assert ServerPart(isConnect, buf)[k] == buf[sp.off + i];
    }
  }

  lemma {:induction false} DecimalPrefix(digits: Bytes, k: nat)
    requires AllNum(digits) && k <= |digits|
    ensures Decimal(digits[..k]) <= Decimal(digits)
    decreases |digits| - k
  {
    if k < |digits| {
      assert digits[..k + 1][..k] == digits[..k];
      DecimalPrefix(digits, k + 1);
    } else {
      assert digits[..k] == digits;
    }
  }
}
