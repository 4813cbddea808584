/** The bytes of a URL and of its server part, labelled with the fields that they belong to. */
module HttpUrlFields {
  import opened HttpTypes
  import opened HttpUrlChar

  datatype Field = SchemaField | UserInfo | Host | Port | Path | QueryField | FragmentField

  datatype Label = Delimiter | In(field: Field)

  /** Where a field lies in the buffer. */
  datatype Span = Span(off: nat, len: nat)

  type Fields = map<Field, Span>

  /** The order of the fields in a URL. */
  function Place(f: Field): nat {
    match f
    case SchemaField => 0
    case UserInfo => 1
    case Host => 2
    case Port => 3
    case Path => 4
    case QueryField => 5
    case FragmentField => 6
  }

  /** The fields within the server part. */
  predicate OfServer(f: Field) {
    f == UserInfo || f == Host || f == Port
  }

  // ---------- labelled bytes ----------

  /** The bytes with a label. */
  function Select(bytes: Bytes, labels: seq<Label>, f: Field): Bytes
    requires |labels| == |bytes|
    decreases |bytes|
  {
    if bytes == [] then []
    else
      var n := |bytes| - 1;
      Select(bytes[..n], labels[..n], f) + (if labels[n] == In(f) then [bytes[n]] else [])
  }

  /** A span is exactly the positions, from `from` on, with a label. */
  predicate Spans(sp: Span, from: nat, labels: seq<Label>, f: Field) {
    && sp.len > 0 && from <= sp.off && sp.off + sp.len <= from + |labels|
    && forall i :: 0 <= i < |labels| ==> (labels[i] == In(f) <==> sp.off <= from + i < sp.off + sp.len)
  }

  /** The fields that are set are exactly the labels that occur, each with its positions. */
  predicate Covers(fields: Fields, from: nat, labels: seq<Label>) {
    && (forall f :: f in fields ==> Spans(fields[f], from, labels, f))
    && (forall i :: 0 <= i < |labels| && labels[i].In? ==> labels[i].field in fields)
  }

  /** Labels come in the order of the fields. */
  predicate Ordered(labels: seq<Label>) {
    forall i, j :: 0 <= i < j < |labels| && labels[i].In? && labels[j].In? ==>
        Place(labels[i].field) <= Place(labels[j].field)
  }

  /** The fields lie in the buffer, are not empty, and follow each other in their order. */
  predicate InOrder(fields: Fields, n: nat) {
    && (forall f :: f in fields ==> fields[f].len > 0 && fields[f].off + fields[f].len <= n)
    && (forall f, g :: f in fields && g in fields && Place(f) < Place(g) ==>
          fields[f].off + fields[f].len <= fields[g].off)
  }

  lemma Present(fields: Fields, from: nat, labels: seq<Label>, f: Field)
    requires Covers(fields, from, labels)
    ensures f in fields <==> In(f) in labels
  {
    if f in fields {
      assert labels[fields[f].off - from] == In(f);
    }
  }

  lemma CoversDelimiter(fields: Fields, from: nat, labels: seq<Label>)
    requires Covers(fields, from, labels)
    ensures Covers(fields, from, labels + [Delimiter])
  {
  }

  lemma CoversGrow(fields: Fields, from: nat, labels: seq<Label>, f: Field)
    requires Covers(fields, from, labels)
    requires labels != [] && labels[|labels| - 1] == In(f)
    ensures f in fields && Covers(fields[f := Span(fields[f].off, fields[f].len + 1)], from, labels + [In(f)])
  {
    var last := |labels| - 1;
    assert labels[last].field in fields;
    assert fields[f].off + fields[f].len == from + |labels|;
  }

  lemma CoversNew(fields: Fields, from: nat, labels: seq<Label>, f: Field)
    requires Covers(fields, from, labels) && In(f) !in labels
    ensures Covers(fields[f := Span(from + |labels|, 1)], from, labels + [In(f)])
  {
  }

  lemma {:induction false} SelectSpan(buf: Bytes, from: nat, labels: seq<Label>, f: Field, sp: Span)
    requires from + |labels| <= |buf| && Spans(sp, from, labels, f)
    ensures Select(buf[from..from + |labels|], labels, f) == buf[sp.off..sp.off + sp.len]
  {
    SelectPrefix(buf, from, labels, f, sp, |labels|);
    assert labels[..|labels|] == labels;
  }

  lemma {:induction false} SelectNone(bytes: Bytes, labels: seq<Label>, f: Field)
    requires |labels| == |bytes| && In(f) !in labels
    ensures Select(bytes, labels, f) == []
    decreases |bytes|
  {
    if bytes != [] {
      SelectNone(bytes[..|bytes| - 1], labels[..|bytes| - 1], f);
    }
  }

  lemma WholeSpan(buf: Bytes, labels: seq<Label>, f: Field, sp: Span)
    requires |labels| == |buf| && Spans(sp, 0, labels, f)
    ensures Select(buf, labels, f) == buf[sp.off..sp.off + sp.len]
  {
    SelectSpan(buf, 0, labels, f, sp);
    assert buf[0..0 + |labels|] == buf;
  }

  lemma InSpan(sp: Span, labels: seq<Label>, f: Field)
    requires Spans(sp, 0, labels, f)
    ensures sp.off + sp.len <= |labels|
  {
  }

  function Clamp(x: int, lo: int, hi: int): int
    requires lo <= hi
  {
    if x < lo then lo else if x > hi then hi else x
  }

  lemma ClampNext(buf: Bytes, i: nat, sp: Span, inside: bool)
    requires sp.len > 0 && sp.off + sp.len <= |buf| && i < |buf| && (inside <==> sp.off <= i < sp.off + sp.len)
    ensures buf[sp.off..Clamp(i + 1, sp.off, sp.off + sp.len)]
         == buf[sp.off..Clamp(i, sp.off, sp.off + sp.len)] + (if inside then [buf[i]] else [])
  {
  }

  lemma SliceUpTo<T>(s: seq<T>, from: nat, k: nat)
    requires from + k < |s|
    ensures s[from..from + (k + 1)][..k] == s[from..from + k] && s[from..from + (k + 1)][k] == s[from + k]
  {
  }

  lemma PrefixUpTo<T>(s: seq<T>, k: nat)
    requires k < |s|
    ensures s[..k + 1][..k] == s[..k] && s[..k + 1][k] == s[k]
  {
  }

  lemma SelectOne(bytes: Bytes, labels: seq<Label>, f: Field, k: nat)
    requires |labels| == |bytes| == k + 1
    ensures Select(bytes, labels, f)
         == Select(bytes[..k], labels[..k], f) + (if labels[k] == In(f) then [bytes[k]] else [])
  {
  }

  lemma LabelledHere(buf: Bytes, from: nat, labels: seq<Label>, f: Field, sp: Span, i: nat)
    requires from + |labels| <= |buf| && Spans(sp, from, labels, f) && i < |labels|
    ensures labels[i] == In(f) <==> sp.off <= from + i < sp.off + sp.len
  {
  }

  lemma SpanLength(sp: Span, from: nat, labels: seq<Label>, f: Field)
    requires Spans(sp, from, labels, f)
    ensures sp.len > 0 && from <= sp.off && sp.off + sp.len <= from + |labels|
  {
  }

  lemma {:induction false} SelectPrefix(buf: Bytes, from: nat, labels: seq<Label>, f: Field, sp: Span, k: nat)
    requires from + |labels| <= |buf| && Spans(sp, from, labels, f) && k <= |labels|
    ensures Select(buf[from..from + k], labels[..k], f) == buf[sp.off..Clamp(from + k, sp.off, sp.off + sp.len)]
  {
    if k == 0 {
      assert buf[from..from + k] == [] && labels[..k] == [];
    } else {
      hide Spans, Clamp, Select;
      var n := k - 1;
      SelectPrefix(buf, from, labels, f, sp, n);
      SelectOne(buf[from..from + (n + 1)], labels[..n + 1], f, n);
      SliceUpTo(buf, from, n);
      PrefixUpTo(labels, n);
      LabelledHere(buf, from, labels, f, sp, n);
      SpanLength(sp, from, labels, f);
      ClampNext(buf, from + n, sp, labels[n] == In(f));
    }
  }

  lemma OrderedFields(fields: Fields, from: nat, labels: seq<Label>)
    requires Covers(fields, from, labels) && Ordered(labels)
    ensures InOrder(fields, from + |labels|)
  {
    forall f, g | f in fields && g in fields && Place(f) < Place(g)
      ensures fields[f].off + fields[f].len <= fields[g].off
    {
      var x, y := fields[f], fields[g];
      var i, j := x.off - from, y.off - from;
      var i' := i + x.len - 1;
      assert labels[i] == In(f) && labels[i'] == In(f) && labels[j] == In(g);
    }
  }

  // ---------- the states of a URL ----------

  function UrlState(start: State, bytes: Bytes): State
    decreases |bytes|
  {
    if bytes == [] then start else ParseUrlChar(UrlState(start, bytes[..|bytes| - 1]), bytes[|bytes| - 1])
  }

  lemma UrlStateNext(start: State, bytes: Bytes, ch: Byte)
    ensures UrlState(start, bytes + [ch]) == ParseUrlChar(UrlState(start, bytes), ch)
  {
    assert (bytes + [ch])[..|bytes|] == bytes;
  }

  /** The field of the byte that leads to a state; user info, host and port are told apart later. */
  function LabelOf(s: State): Label {
    match s
    case Schema => In(SchemaField)
    case Server | ServerWithAt => In(Host)
    case UrlPath => In(Path)
    case Query => In(QueryField)
    case Fragment => In(FragmentField)
    case _ => Delimiter
  }

  function UrlLabels(start: State, bytes: Bytes): (labels: seq<Label>)
    ensures |labels| == |bytes|
    decreases |bytes|
  {
    if bytes == [] then [] else UrlLabels(start, bytes[..|bytes| - 1]) + [LabelOf(UrlState(start, bytes))]
  }

  function StartState(isConnect: bool): State {
    if isConnect then ServerStart else SpacesBeforeUrl
  }

  /** The order of the states of a URL; a field has states of one rank. */
  function Rank(s: State): nat {
    match s
    case SpacesBeforeUrl => 0
    case Schema => 10
    case SchemaSlash => 11
    case SchemaSlashSlash => 12
    case ServerStart => 13
    case Server | ServerWithAt => 20
    case UrlPath => 30
    case QueryStart => 31
    case Query => 40
    case FragmentStart => 41
    case Fragment => 50
    case _ => 60
  }

  function FieldRank(f: Field): nat {
    match f
    case SchemaField => 10
    case UserInfo | Host | Port => 20
    case Path => 30
    case QueryField => 40
    case FragmentField => 50
  }

  lemma RankGrows(s: State, ch: Byte)
    requires InUrl(s) || s.SpacesBeforeUrl?
    ensures var t := ParseUrlChar(s, ch); t.Dead? || (Rank(s) <= Rank(t) && InUrl(t))
  {
  }

  /** While the URL is not dead its labels are in order, and none is past the state. */
  lemma {:induction false} UrlOrdered(start: State, bytes: Bytes)
    requires start.SpacesBeforeUrl? || start.ServerStart?
    requires !UrlState(start, bytes).Dead?
    ensures var s, labels := UrlState(start, bytes), UrlLabels(start, bytes);
            && (InUrl(s) || s.SpacesBeforeUrl?)
            && Ordered(labels)
            && (forall i :: 0 <= i < |labels| && labels[i].In? ==>
                  labels[i].field != UserInfo && labels[i].field != Port
                  && if LabelOf(s) == labels[i] then labels[|labels| - 1] == labels[i]
                      else FieldRank(labels[i].field) < Rank(s))
    decreases |bytes|
  {
    hide ParseUrlChar;
    if bytes != [] {
      var n := |bytes| - 1;
      var b := bytes[..n];
      DeadStays(UrlState(start, b), bytes[n]);
      UrlOrdered(start, b);
      RankGrows(UrlState(start, b), bytes[n]);
    }
  }

  lemma DeadStays(s: State, ch: Byte)
    ensures s.Dead? ==> ParseUrlChar(s, ch).Dead?
  {
  }

  lemma {:induction false} DeadForEver(start: State, bytes: Bytes, k: nat)
    requires k <= |bytes| && UrlState(start, bytes[..k]).Dead?
    ensures UrlState(start, bytes).Dead?
    decreases |bytes| - k
  {
    hide ParseUrlChar;
    if k < |bytes| {
      assert bytes[..k + 1][..k] == bytes[..k];
      DeadStays(UrlState(start, bytes[..k]), bytes[k]);
      DeadForEver(start, bytes, k + 1);
    } else {
      assert bytes[..k] == bytes;
    }
  }

  /** Has an `@` been seen in the server part? */
  predicate SawAt(start: State, bytes: Bytes)
    decreases |bytes|
  {
    bytes != [] && (SawAt(start, bytes[..|bytes| - 1]) || UrlState(start, bytes).ServerWithAt?)
  }

  // ---------- the states of a host ----------

  datatype HostState =
    | HostDead | UserInfoStart | InUserInfo | HostStart | V6Start | InHost | V6 | V6End | V6ZoneStart | V6Zone
    | PortStart | InPort

  function ParseHostChar(s: HostState, ch: Byte): HostState {
    match s
    case InUserInfo | UserInfoStart =>
      if ch == '@' then HostStart else if IsUserInfoChar(ch) then InUserInfo else HostDead
    case HostStart =>
      if ch == '[' then V6Start else if IsHostChar(ch) then InHost else HostDead
    case InHost =>
      if IsHostChar(ch) then InHost else if ch == ':' then PortStart else HostDead
    case V6End => if ch == ':' then PortStart else HostDead
    case V6 =>
      if ch == ']' then V6End
      else if IsHex(ch) || ch == ':' || ch == '.' then V6
      else if ch == '%' then V6ZoneStart
      else HostDead
    case V6Start => if IsHex(ch) || ch == ':' || ch == '.' then V6 else HostDead
    case V6Zone => if ch == ']' then V6End else if IsZoneChar(ch) then V6Zone else HostDead
    case V6ZoneStart => if IsZoneChar(ch) then V6Zone else HostDead
    case InPort | PortStart => if IsNum(ch) then InPort else HostDead
    case HostDead => HostDead
  }

  predicate IsZoneChar(ch: Byte) {
    IsAlphaNum(ch) || ch == '%' || ch == '.' || ch == '-' || ch == '_' || ch == '~'
  }

  function HostStateOf(start: HostState, bytes: Bytes): HostState
    decreases |bytes|
  {
    if bytes == [] then start else ParseHostChar(HostStateOf(start, bytes[..|bytes| - 1]), bytes[|bytes| - 1])
  }

  function HostLabelOf(s: HostState): Label {
    match s
    case InUserInfo => In(UserInfo)
    case InHost | V6 | V6ZoneStart | V6Zone => In(Host)
    case InPort => In(Port)
    case _ => Delimiter
  }

  function HostLabels(start: HostState, bytes: Bytes): (labels: seq<Label>)
    ensures |labels| == |bytes|
    decreases |bytes|
  {
    if bytes == [] then [] else HostLabels(start, bytes[..|bytes| - 1]) + [HostLabelOf(HostStateOf(start, bytes))]
  }

  /** The states in which a host may end. */
  predicate HostMayEnd(s: HostState) {
    s.InHost? || s.V6End? || s.InPort?
  }

  function HostRank(s: HostState): nat {
    match s
    case UserInfoStart => 0
    case InUserInfo => 10
    case HostStart => 11
    case V6Start => 12
    case InHost | V6 | V6ZoneStart | V6Zone => 20
    case V6End => 21
    case PortStart => 22
    case InPort => 30
    case HostDead => 40
  }

  /** The rank of a host field. */
  function HostFieldRank(f: Field): nat {
    match f
    case UserInfo => 10
    case Host => 20
    case Port => 30
    case _ => 50
  }

  lemma HostRankGrows(s: HostState, ch: Byte)
    ensures HostRank(s) <= HostRank(ParseHostChar(s, ch))
    ensures HostRank(s) < 20 <= HostRank(ParseHostChar(s, ch)) < 40 ==> HostLabelOf(ParseHostChar(s, ch)) == In(Host)
    ensures HostLabelOf(ParseHostChar(s, ch)) == In(Port) ==> IsNum(ch)
  {
  }

  lemma HostLabelRank(s: HostState)
    ensures HostLabelOf(s).In? ==>
              OfServer(HostLabelOf(s).field) && HostFieldRank(HostLabelOf(s).field) == HostRank(s)
  {
  }

  /** While the host is not dead its labels are in order, and none is past the state. */
  lemma {:induction false} HostOrdered(start: HostState, bytes: Bytes)
    requires !HostStateOf(start, bytes).HostDead?
    ensures var s, labels := HostStateOf(start, bytes), HostLabels(start, bytes);
            && Ordered(labels)
            && (forall i :: 0 <= i < |labels| && labels[i].In? ==>
                  && OfServer(labels[i].field)
                  && HostFieldRank(labels[i].field) <= HostRank(s)
                  && (HostFieldRank(labels[i].field) == HostRank(s) ==> labels[|labels| - 1] == labels[i]))
    decreases |bytes|
  {
    hide ParseHostChar, HostRank, HostLabelOf;
    if bytes != [] {
      var n := |bytes| - 1;
      var b := bytes[..n];
      HostDeadStays(HostStateOf(start, b), bytes[n]);
      HostOrdered(start, b);
      HostRankGrows(HostStateOf(start, b), bytes[n]);
      HostLabelRank(HostStateOf(start, b));
      HostLabelRank(HostStateOf(start, bytes));
      SameRank(HostStateOf(start, b), HostStateOf(start, bytes));
    }
  }

  lemma SameRank(s: HostState, t: HostState)
    ensures HostRank(s) == HostRank(t) ==> HostLabelOf(s) == HostLabelOf(t)
  {
  }

  /** A port consists of digits. */
  lemma {:induction false} PortDigits(start: HostState, bytes: Bytes)
    ensures forall i :: 0 <= i < |bytes| && HostLabels(start, bytes)[i] == In(Port) ==> IsNum(bytes[i])
    decreases |bytes|
  {
    hide ParseHostChar, HostLabelOf;
    if bytes != [] {
      PortDigits(start, bytes[..|bytes| - 1]);
      HostRankGrows(HostStateOf(start, bytes[..|bytes| - 1]), bytes[|bytes| - 1]);
    }
  }

  /** A host that has come so far is not empty. */
  lemma {:induction false} HostNotEmpty(start: HostState, bytes: Bytes)
    requires start.UserInfoStart? || start.HostStart?
    ensures 20 <= HostRank(HostStateOf(start, bytes)) < 40 ==> In(Host) in HostLabels(start, bytes)
    decreases |bytes|
  {
    hide ParseHostChar, HostLabelOf;
    if bytes != [] {
      var n := |bytes| - 1;
      var b := bytes[..n];
      HostNotEmpty(start, b);
      HostRankGrows(HostStateOf(start, b), bytes[n]);
      var labels := HostLabels(start, bytes);
      assert labels[..n] == HostLabels(start, b);
      if In(Host) in HostLabels(start, b) {
        assert In(Host) in labels[..n];
      } else {
        assert labels[n] == HostLabelOf(HostStateOf(start, bytes));
      }
    }
  }

  lemma HostDeadStays(s: HostState, ch: Byte)
    ensures s.HostDead? ==> ParseHostChar(s, ch).HostDead?
  {
  }

  // ---------- which URLs are accepted ----------

  function HostStartOf(foundAt: bool): HostState {
    if foundAt then UserInfoStart else HostStart
  }

  /** The server part of a URL: user info, host and port. */
  function ServerPart(isConnect: bool, buf: Bytes): Bytes {
    Select(buf, UrlLabels(StartState(isConnect), buf), Host)
  }

  function ServerLabels(isConnect: bool, buf: Bytes): (labels: seq<Label>)
    ensures |labels| == |ServerPart(isConnect, buf)|
  {
    HostLabels(HostStartOf(SawAt(StartState(isConnect), buf)), ServerPart(isConnect, buf))
  }

  /** The server part ends well. */
  predicate ServerEnds(isConnect: bool, buf: Bytes) {
    HostMayEnd(HostStateOf(HostStartOf(SawAt(StartState(isConnect), buf)), ServerPart(isConnect, buf)))
  }

  /** The port, if there is one, fits 16 bits. */
  predicate PortFits(isConnect: bool, buf: Bytes) {
    var digits := Select(ServerPart(isConnect, buf), ServerLabels(isConnect, buf), Port);
    AllNum(digits) && Decimal(digits) <= 0xffff
  }

  predicate Accepted(isConnect: bool, buf: Bytes) {
    var start := StartState(isConnect);
    var labels, server := UrlLabels(start, buf), ServerLabels(isConnect, buf);
    && buf != [] && !UrlState(start, buf).Dead?
    && (In(SchemaField) in labels ==> In(Host) in labels)
    && (In(Host) in labels ==> ServerEnds(isConnect, buf) && PortFits(isConnect, buf))
    && (isConnect ==>
          && In(Host) in labels && In(Port) in server && In(UserInfo) !in server
          && forall i :: 0 <= i < |labels| && labels[i].In? ==> labels[i].field == Host)
  }

  /**
   * The fields that are set are those that occur, each with exactly its bytes, in their order and apart from each
   * other; `server` is where user info, host and port lie.
   */
  predicate RightFields(isConnect: bool, buf: Bytes, fields: Fields, server: Span) {
    var labels := UrlLabels(StartState(isConnect), buf);
    && InOrder(fields, |buf|)
    && (forall f :: !OfServer(f) ==>
          (f in fields <==> In(f) in labels) && (f in fields ==> Spans(fields[f], 0, labels, f)))
    && (In(Host) in labels ==>
          && Spans(server, 0, labels, Host)
          && forall f :: OfServer(f) ==>
               && (f in fields <==> In(f) in ServerLabels(isConnect, buf))
               && (f in fields ==> Spans(fields[f], server.off, ServerLabels(isConnect, buf), f)))
    && (In(Host) !in labels ==> Host !in fields && UserInfo !in fields && Port !in fields)
  }

  /** The port is the value of its digits, or zero. */
  predicate RightPort(buf: Bytes, fields: Fields, port: nat) {
    if Port in fields then
      && fields[Port].off + fields[Port].len <= |buf|
      && var digits := buf[fields[Port].off..fields[Port].off + fields[Port].len];
         AllNum(digits) && port == Decimal(digits) && port <= 0xffff
    else port == 0
  }
}
