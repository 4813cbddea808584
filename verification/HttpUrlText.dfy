/**
 * Where the parts of a URL lie and which URLs are well-formed, told from the bytes and their delimiters alone; and that
 * the states of the parser agree with it.
 */
module HttpUrlText {
  import opened HttpTypes
  import opened HttpUrlChar
  import opened HttpUrlFields

  // ---------- bytes ----------

  predicate Letter(c: Byte) {
    'a' <= c <= 'z' || 'A' <= c <= 'Z'
  }

  predicate Numeral(c: Byte) {
    '0' <= c <= '9'
  }

  predicate HexOrDotted(c: Byte) {
    Numeral(c) || 'a' <= c <= 'f' || 'A' <= c <= 'F' || c == ':' || c == '.'
  }

  predicate HostByte(c: Byte) {
    Letter(c) || Numeral(c) || c == '.' || c == '-'
  }

  predicate ZoneByte(c: Byte) {
    Letter(c) || Numeral(c) || c == '%' || c == '.' || c == '-' || c == '_' || c == '~'
  }

  predicate UserByte(c: Byte) {
    Letter(c) || Numeral(c) || c == '-' || c == '_' || c == '.' || c == '!' || c == '~' || c == '*' || c == '\''
    || c == '(' || c == ')' || c == '%' || c == ';' || c == ':' || c == '&' || c == '=' || c == '+' || c == '$'
    || c == ','
  }

  predicate Visible(c: Byte) {
    33 <= c as int <= 126
  }

  /** The first position from `from` on at which one of two bytes stands, or the end. */
  function Until(buf: Bytes, from: nat, a: Byte, b: Byte): (p: nat)
    requires from <= |buf|
    ensures from <= p <= |buf|
    ensures forall i :: from <= i < p ==> buf[i] != a && buf[i] != b
    ensures p < |buf| ==> buf[p] == a || buf[p] == b
    decreases |buf| - from
  {
    if from == |buf| || buf[from] == a || buf[from] == b then from else Until(buf, from + 1, a, b)
  }

  /** The first position from `from` on at which another byte than this one stands, or the end. */
  function Past(buf: Bytes, from: nat, a: Byte): (p: nat)
    requires from <= |buf|
    ensures from <= p <= |buf|
    ensures forall i :: from <= i < p ==> buf[i] == a
    ensures p < |buf| ==> buf[p] != a
    decreases |buf| - from
  {
    if from == |buf| || buf[from] != a then from else Past(buf, from + 1, a)
  }

  // ---------- the parts of a URL ----------

  /** scheme `://` server path `?` query `#` fragment; several `#` separate as one does. */
  datatype Cut = Cut(schemeEnd: nat, serverFrom: nat, serverEnd: nat, pathEnd: nat, queryFrom: nat, queryEnd: nat,
                     fragmentFrom: nat)

  predicate HasScheme(isConnect: bool, buf: Bytes) {
    !isConnect && buf != [] && buf[0] != '/' && buf[0] != '*'
  }

  function CutOf(isConnect: bool, buf: Bytes): (k: Cut)
    ensures k.schemeEnd <= k.serverFrom <= k.serverEnd <= k.pathEnd <= k.queryFrom <= k.queryEnd <= k.fragmentFrom
    ensures k.fragmentFrom <= |buf|
  {
    var scheme := HasScheme(isConnect, buf);
    var c := if scheme then Until(buf, 0, ':', ':') else 0;
    var h := if !scheme then 0 else if c + 3 <= |buf| then c + 3 else |buf|;
    var e := if scheme || isConnect then Until(buf, h, '/', '?') else 0;
    var q := Until(buf, e, '?', '#');
    var r := if q < |buf| && buf[q] == '?' then q + 1 else q;
    var z := Until(buf, r, '#', '#');
    Cut(c, h, e, q, r, z, Past(buf, z, '#'))
  }

  /** May the byte stand where it does? */
  predicate FitsAt(buf: Bytes, k: Cut, i: nat)
    requires i < |buf|
  {
    if i < k.schemeEnd then Letter(buf[i])
    else if i < k.serverFrom then if i == k.schemeEnd then i > 0 && buf[i] == ':' else buf[i] == '/'
    else if i < k.serverEnd then
      if buf[i] == '@' then k.serverFrom < i ==>
          buf[i - 1] != '@' else UserByte(buf[i]) || buf[i] == '[' || buf[i] == ']'
    else Visible(buf[i])
  }

  /** The state that the first bytes lead to when each may stand where it does. */
  function StateAt(isConnect: bool, buf: Bytes, k: Cut, n: nat): (s: State)
    requires n <= |buf|
    ensures !s.Dead?
  {
    if n == 0 then StartState(isConnect)
    else if n <= k.schemeEnd then Schema
    else if n <= k.serverFrom then
      if n == k.schemeEnd + 1 then SchemaSlash else if n == k.schemeEnd + 2 then SchemaSlashSlash else ServerStart
    else if n <= k.serverEnd then if buf[n - 1] == '@' then ServerWithAt else Server
    else if n <= k.pathEnd then UrlPath
    else if n <= k.queryFrom then QueryStart
    else if n <= k.queryEnd then Query
    else if n <= k.fragmentFrom then FragmentStart
    else Fragment
  }

  lemma SchemeByte(isConnect: bool, buf: Bytes, k: Cut, n: nat)
    requires n < |buf| && k == CutOf(isConnect, buf) && n < k.serverFrom
    ensures ParseUrlChar(StateAt(isConnect, buf, k, n), buf[n])
         == if FitsAt(buf, k, n) then StateAt(isConnect, buf, k, n + 1) else Dead
  {
    hide Until, Past;
  }

  lemma ServerByte(isConnect: bool, buf: Bytes, k: Cut, n: nat)
    requires n < |buf| && k == CutOf(isConnect, buf) && k.serverFrom <= n < k.serverEnd
    ensures ParseUrlChar(StateAt(isConnect, buf, k, n), buf[n])
         == if FitsAt(buf, k, n) then StateAt(isConnect, buf, k, n + 1) else Dead
  {
    hide Until, Past;
  }

  /** The states behind scheme and server. */
  lemma NextInTail(ch: Byte)
    ensures ParseUrlChar(UrlPath, ch)
         == if !Visible(ch) then Dead
            else if ch == '?' then QueryStart
            else if ch == '#' then FragmentStart
            else UrlPath
    ensures ParseUrlChar(QueryStart, ch) == ParseUrlChar(Query, ch)
         == if !Visible(ch) then Dead else if ch == '#' then FragmentStart else Query
    ensures ParseUrlChar(FragmentStart, ch)
         == if !Visible(ch) then Dead else if ch == '#' then FragmentStart else Fragment
    ensures ParseUrlChar(Fragment, ch) == if Visible(ch) then Fragment else Dead
  {
  }

  lemma FirstOfTail(s: State, ch: Byte)
    requires (s.SpacesBeforeUrl? && (ch == '/' || ch == '*')) || s.ServerStart? || s.Server? || s.ServerWithAt?
    requires ch == '/' || ch == '?' || s.SpacesBeforeUrl?
    ensures ParseUrlChar(s, ch) == if ch == '?' then QueryStart else UrlPath
    ensures Visible(ch)
  {
  }

  lemma PathByte(isConnect: bool, buf: Bytes, k: Cut, n: nat)
    requires n < |buf| && k == CutOf(isConnect, buf) && k.serverEnd <= n < k.queryFrom
    ensures ParseUrlChar(StateAt(isConnect, buf, k, n), buf[n])
         == if FitsAt(buf, k, n) then StateAt(isConnect, buf, k, n + 1) else Dead
  {
    hide Until, Past, Visible, ParseUrlChar;
    if n == k.serverEnd {
      FirstOfTail(StateAt(isConnect, buf, k, n), buf[n]);
    } else {
      NextInTail(buf[n]);
    }
  }

  lemma QueryByte(isConnect: bool, buf: Bytes, k: Cut, n: nat)
    requires n < |buf| && k == CutOf(isConnect, buf) && k.queryFrom <= n < k.queryEnd
    ensures ParseUrlChar(StateAt(isConnect, buf, k, n), buf[n])
         == if FitsAt(buf, k, n) then StateAt(isConnect, buf, k, n + 1) else Dead
  {
    hide Until, Past, Visible, ParseUrlChar;
    NextInTail(buf[n]);
  }

  lemma FragmentByte(isConnect: bool, buf: Bytes, k: Cut, n: nat)
    requires n < |buf| && k == CutOf(isConnect, buf) && k.queryEnd <= n
    ensures ParseUrlChar(StateAt(isConnect, buf, k, n), buf[n])
         == if FitsAt(buf, k, n) then StateAt(isConnect, buf, k, n + 1) else Dead
  {
    hide Until, Past, Visible, ParseUrlChar;
    NextInTail(buf[n]);
  }

  // ---------- the parts of a server ----------

  /** user info `@` host `:` port; a host in brackets may have a zone behind a `%`. */
  datatype ServerCut = ServerCut(hasUser: bool, userEnd: nat, bracketed: bool, hostFrom: nat, zone: nat, hostEnd: nat,
                                 colon: nat)

  function ServerCutOf(v: Bytes): (k: ServerCut)
    ensures k.userEnd <= k.hostFrom <= k.zone <= k.hostEnd <= k.colon <= |v|
  {
    var at := Until(v, 0, '@', '@');
    var hasUser := at < |v|;
    var h := if hasUser then at + 1 else 0;
    var bracketed := h < |v| && v[h] == '[';
    var t := if bracketed then h + 1 else h;
    var z := if bracketed then Until(v, t, '%', ']') else Until(v, t, ':', ':');
    var u := if bracketed then Until(v, z, ']', ']') else z;
    ServerCut(hasUser, if hasUser then at else 0, bracketed, t, z, u, if bracketed && u < |v| then u + 1 else u)
  }

  predicate FitsServer(v: Bytes, k: ServerCut, i: nat)
    requires i < |v|
  {
    if i < k.userEnd then UserByte(v[i])
    else if i < k.hostFrom then true
    else if i < k.zone then if k.bracketed then HexOrDotted(v[i]) else HostByte(v[i])
    else if i < k.hostEnd then if i == k.zone then k.hostFrom < i else ZoneByte(v[i])
    else if i < k.colon then k.hostFrom < i && i != k.zone + 1
    else if i == k.colon then v[i] == ':' && k.hostFrom < i
    else Numeral(v[i])
  }

  function HostStateAt(v: Bytes, k: ServerCut, n: nat): HostState {
    if n == 0 then HostStartOf(k.hasUser)
    else if n <= k.userEnd then InUserInfo
    else if n <= k.hostFrom then if k.bracketed && n == k.hostFrom then V6Start else HostStart
    else if n <= k.zone then if k.bracketed then V6 else InHost
    else if n <= k.hostEnd then if n == k.zone + 1 then V6ZoneStart else V6Zone
    else if n <= k.colon then V6End
    else if n == k.colon + 1 then PortStart
    else InPort
  }

  lemma UserInfoByte(v: Bytes, k: ServerCut, n: nat)
    requires n < |v| && k == ServerCutOf(v) && n < k.hostFrom
    ensures ParseHostChar(HostStateAt(v, k, n), v[n])
         == if FitsServer(v, k, n) then HostStateAt(v, k, n + 1) else HostDead
  {
    hide Until;
  }

  lemma HostPartByte(v: Bytes, k: ServerCut, n: nat)
    requires n < |v| && k == ServerCutOf(v) && k.hostFrom <= n < k.hostEnd
    ensures ParseHostChar(HostStateAt(v, k, n), v[n])
         == if FitsServer(v, k, n) then HostStateAt(v, k, n + 1) else HostDead
  {
    hide Until;
  }

  lemma PortByte(v: Bytes, k: ServerCut, n: nat)
    requires n < |v| && k == ServerCutOf(v) && k.hostEnd <= n
    ensures ParseHostChar(HostStateAt(v, k, n), v[n])
         == if FitsServer(v, k, n) then HostStateAt(v, k, n + 1) else HostDead
  {
    hide Until;
  }

  lemma HostByteAt(v: Bytes, n: nat)
    requires n < |v|
    ensures var k := ServerCutOf(v);
            ParseHostChar(HostStateAt(v, k, n), v[n])
            == if FitsServer(v, k, n) then HostStateAt(v, k, n + 1) else HostDead
  {
    hide Until, ParseHostChar, HostStateAt, FitsServer;
    var k := ServerCutOf(v);
    if n < k.hostFrom {
      UserInfoByte(v, k, n);
    } else if n < k.hostEnd {
      HostPartByte(v, k, n);
    } else {
      PortByte(v, k, n);
    }
  }

  lemma UrlByteAt(isConnect: bool, buf: Bytes, n: nat)
    requires n < |buf|
    ensures var k := CutOf(isConnect, buf);
            ParseUrlChar(StateAt(isConnect, buf, k, n), buf[n])
            == if FitsAt(buf, k, n) then StateAt(isConnect, buf, k, n + 1) else Dead
  {
    var k := CutOf(isConnect, buf);
    hide Until, Past, ParseUrlChar, StateAt, FitsAt, CutOf;
    if n < k.serverFrom {
      SchemeByte(isConnect, buf, k, n);
    } else if n < k.serverEnd {
      ServerByte(isConnect, buf, k, n);
    } else if n < k.queryFrom {
      PathByte(isConnect, buf, k, n);
    } else if n < k.queryEnd {
      QueryByte(isConnect, buf, k, n);
    } else {
      FragmentByte(isConnect, buf, k, n);
    }
  }

  /** The states of a URL: alive exactly while every byte may stand where it does. */
  lemma {:induction false} UrlStates(isConnect: bool, buf: Bytes, n: nat)
    requires n <= |buf|
    ensures var k := CutOf(isConnect, buf);
            UrlState(StartState(isConnect), buf[..n])
            == if forall i :: 0 <= i < n ==> FitsAt(buf, k, i) then StateAt(isConnect, buf, k, n) else Dead
  {
    hide ParseUrlChar, CutOf, FitsAt;
    var k := CutOf(isConnect, buf);
    if n == 0 {
      assert buf[..n] == [];
    } else {
      hide StateAt;
      UrlStates(isConnect, buf, n - 1);
      UrlByteAt(isConnect, buf, n - 1);
      assert buf[..n][..n - 1] == buf[..n - 1];
      DeadStays(Dead, buf[n - 1]);
    }
  }

  lemma {:induction false} HostStates(v: Bytes, n: nat)
    requires n <= |v|
    ensures var k := ServerCutOf(v);
            HostStateOf(HostStartOf(k.hasUser), v[..n])
            == if forall i :: 0 <= i < n ==> FitsServer(v, k, i) then HostStateAt(v, k, n) else HostDead
  {
    hide ParseHostChar, ServerCutOf, FitsServer;
    var k := ServerCutOf(v);
    if n == 0 {
      assert v[..n] == [];
    } else {
      hide HostStateAt;
      HostStates(v, n - 1);
      HostByteAt(v, n - 1);
      assert v[..n][..n - 1] == v[..n - 1];
      HostDeadStays(HostDead, v[n - 1]);
    }
  }

  lemma {:induction false} UrlLabelAt(start: State, buf: Bytes, i: nat)
    requires i < |buf|
    ensures UrlLabels(start, buf)[i] == LabelOf(UrlState(start, buf[..i + 1]))
    decreases |buf|
  {
    hide LabelOf, UrlState;
    var n := |buf| - 1;
    if i < n {
      UrlLabelAt(start, buf[..n], i);
      assert buf[..n][..i + 1] == buf[..i + 1];
    } else {
      assert buf[..i + 1] == buf;
    }
  }

  lemma {:induction false} HostLabelAt(start: HostState, v: Bytes, i: nat)
    requires i < |v|
    ensures HostLabels(start, v)[i] == HostLabelOf(HostStateOf(start, v[..i + 1]))
    decreases |v|
  {
    hide HostLabelOf, HostStateOf;
    var n := |v| - 1;
    if i < n {
      HostLabelAt(start, v[..n], i);
      assert v[..n][..i + 1] == v[..i + 1];
    } else {
      assert v[..i + 1] == v;
    }
  }

  // ---------- well-formed URLs ----------

  /** [user-info `@`] host [`:` port], none of the named parts but the user info empty. */
  predicate WellServer(v: Bytes) {
    var k := ServerCutOf(v);
    && (forall i :: 0 <= i < k.userEnd ==> UserByte(v[i]))
    && k.hostFrom < k.hostEnd
    && (if k.bracketed then
          && k.hostEnd < |v| && k.hostFrom < k.zone && k.hostEnd != k.zone + 1
          && (forall i :: k.hostFrom <= i < k.zone ==> HexOrDotted(v[i]))
          && (forall i :: k.zone < i < k.hostEnd ==> ZoneByte(v[i]))
        else
          forall i :: k.hostFrom <= i < k.hostEnd ==> HostByte(v[i]))
    && (k.colon < |v| ==>
          v[k.colon] == ':' && k.colon + 1 < |v| && forall i :: k.colon < i < |v| ==> Numeral(v[i]))
  }

  lemma WellServerFits(v: Bytes, i: nat)
    requires WellServer(v) && i < |v|
    ensures FitsServer(v, ServerCutOf(v), i)
    ensures UserByte(v[i]) || v[i] == '[' || v[i] == ']' || v[i] == '@'
    ensures i > 0 && v[i] == '@' ==> v[i - 1] != '@'
  {
    hide Until;
  }

  lemma WellServerEnds(v: Bytes)
    requires WellServer(v)
    ensures HostMayEnd(HostStateAt(v, ServerCutOf(v), |v|))
  {
    hide Until, UserByte, HexOrDotted, HostByte, ZoneByte, Numeral;
  }

  lemma FitsIsWell(v: Bytes)
    requires var k := ServerCutOf(v);
             (forall i :: 0 <= i < |v| ==> FitsServer(v, k, i)) && HostMayEnd(HostStateAt(v, k, |v|))
    ensures WellServer(v)
  {
    hide Until, UserByte, HexOrDotted, HostByte, ZoneByte, Numeral;
    var k := ServerCutOf(v);
    if k.bracketed {
      if k.hostEnd < |v| {
        assert FitsServer(v, k, k.hostEnd);
      }
    } else if k.colon < |v| {
      assert FitsServer(v, k, k.colon);
    }
    if k.colon < |v| {
      assert FitsServer(v, k, k.colon);
    }
    if k.zone < k.hostEnd {
      assert FitsServer(v, k, k.zone);
    }
    forall i | 0 <= i < k.userEnd ensures UserByte(v[i]) { assert FitsServer(v, k, i); }
    forall i | k.hostFrom <= i < k.zone ensures if k.bracketed then HexOrDotted(v[i]) else HostByte(v[i]) {
      assert FitsServer(v, k, i);
    }
    forall i | k.zone < i < k.hostEnd ensures ZoneByte(v[i]) { assert FitsServer(v, k, i); }
    forall i | k.colon < i < |v| ensures Numeral(v[i]) { assert FitsServer(v, k, i); }
  }

  /** The states of a host end well exactly for a well-formed server. */
  lemma WellServerIs(v: Bytes)
    ensures WellServer(v) <==> HostMayEnd(HostStateOf(HostStartOf(ServerCutOf(v).hasUser), v))
  {
    var k := ServerCutOf(v);
    HostStates(v, |v|);
    assert v[..|v|] == v;
    hide WellServer, FitsServer, HostStateAt, HostStateOf, ServerCutOf;
    if WellServer(v) {
      WellServerEnds(v);
      forall i | 0 <= i < |v| ensures FitsServer(v, k, i) { WellServerFits(v, i); }
    } else if forall i :: 0 <= i < |v| ==> FitsServer(v, k, i) {
      if HostMayEnd(HostStateAt(v, k, |v|)) {
        FitsIsWell(v);
        assert false;
      }
    }
  }

  predicate HasServer(isConnect: bool, buf: Bytes) {
    isConnect || HasScheme(isConnect, buf)
  }

  function ServerText(isConnect: bool, buf: Bytes): Bytes {
    var k := CutOf(isConnect, buf);
    buf[k.serverFrom..k.serverEnd]
  }

  /** Where a field lies; one without bytes is not set. */
  function PartOf(isConnect: bool, buf: Bytes, f: Field): (sp: Span)
    ensures sp.off + sp.len <= |buf|
  {
    var k := CutOf(isConnect, buf);
    var v := ServerText(isConnect, buf);
    var s := ServerCutOf(v);
    match f
    case SchemaField => Span(0, k.schemeEnd)
    case UserInfo => Span(k.serverFrom, s.userEnd)
    case Host => Span(k.serverFrom + s.hostFrom, s.hostEnd - s.hostFrom)
    case Port => if s.colon < |v| then Span(k.serverFrom + s.colon + 1, |v| - s.colon - 1) else Span(k.serverEnd, 0)
    case Path => Span(k.serverEnd, k.pathEnd - k.serverEnd)
    case QueryField => Span(k.queryFrom, k.queryEnd - k.queryFrom)
    case FragmentField => Span(k.fragmentFrom, |buf| - k.fragmentFrom)
  }

  function TextAt(buf: Bytes, sp: Span): Bytes
    requires sp.off + sp.len <= |buf|
  {
    buf[sp.off..sp.off + sp.len]
  }

  /**
   * A scheme is letters followed by `://` and a server; whatever follows scheme and server is visible; a URL of CONNECT
   * has a host and a port and nothing else.
   */
  predicate WellUrl(isConnect: bool, buf: Bytes) {
    var k := CutOf(isConnect, buf);
    && buf != []
    && (HasScheme(isConnect, buf) ==>
          && 0 < k.schemeEnd && k.schemeEnd + 3 <= |buf| && buf[k.schemeEnd..k.schemeEnd + 3] == "://"
          && forall i :: 0 <= i < k.schemeEnd ==> Letter(buf[i]))
    && (HasServer(isConnect, buf) ==> WellServer(ServerText(isConnect, buf)))
    && (forall i :: k.serverEnd <= i < |buf| ==> Visible(buf[i]))
    && (isConnect ==> forall f :: PartOf(isConnect, buf, f).len > 0 <==> f == Host || f == Port)
    && WellPort(TextAt(buf, PartOf(isConnect, buf, Port)))
  }

  /** A port fits 16 bits. */
  predicate WellPort(digits: Bytes) {
    AllNum(digits) && Decimal(digits) <= 65535
  }

  predicate Parts(isConnect: bool, buf: Bytes, fields: Fields) {
    forall f ::
      && (f in fields <==> PartOf(isConnect, buf, f).len > 0)
      && (f in fields ==> fields[f] == PartOf(isConnect, buf, f))
  }

  // ---------- the states agree ----------

  predicate Fits(isConnect: bool, buf: Bytes) {
    forall i :: 0 <= i < |buf| ==> FitsAt(buf, CutOf(isConnect, buf), i)
  }

  /** The bytes outside of the server, in a URL whose bytes may all stand where they do. */
  lemma FitsOutside(isConnect: bool, buf: Bytes)
    requires Fits(isConnect, buf)
    ensures var k := CutOf(isConnect, buf);
            && (forall i :: 0 <= i < k.schemeEnd ==> Letter(buf[i]))
            && (forall i :: k.serverEnd <= i < |buf| ==> Visible(buf[i]))
            && (HasScheme(isConnect, buf) && k.serverFrom < k.serverEnd ==>
                  0 < k.schemeEnd && k.schemeEnd + 3 <= |buf| && buf[k.schemeEnd..k.schemeEnd + 3] == "://")
  {
    hide Until, Past, Letter, Visible, UserByte;
    var k := CutOf(isConnect, buf);
    forall i | 0 <= i < k.schemeEnd ensures Letter(buf[i]) { assert FitsAt(buf, k, i); }
    forall i | k.serverEnd <= i < |buf| ensures Visible(buf[i]) { assert FitsAt(buf, k, i); }
    if HasScheme(isConnect, buf) && k.serverFrom < k.serverEnd {
      var c := k.schemeEnd;
      assert FitsAt(buf, k, c) && FitsAt(buf, k, c + 1) && FitsAt(buf, k, c + 2);
    }
  }

  lemma WellFits(isConnect: bool, buf: Bytes)
    requires WellUrl(isConnect, buf)
    ensures Fits(isConnect, buf)
  {
    hide Until, Past, Letter, Visible, UserByte, WellPort, PartOf, WellServer;
    var k := CutOf(isConnect, buf);
    var v := ServerText(isConnect, buf);
    forall i | 0 <= i < |buf| ensures FitsAt(buf, k, i) {
      if k.serverFrom <= i < k.serverEnd {
        assert v[i - k.serverFrom] == buf[i];
        assert i > k.serverFrom ==> v[i - 1 - k.serverFrom] == buf[i - 1];
        WellServerFits(v, i - k.serverFrom);
      } else if k.schemeEnd <= i < k.serverFrom {
        assert buf[i] == buf[k.schemeEnd..k.schemeEnd + 3][i - k.schemeEnd];
      }
    }
  }

  /** Where the fields of the first pass lie; user info, host and port are one field. */
  function OuterPart(isConnect: bool, buf: Bytes, f: Field): Span {
    var k := CutOf(isConnect, buf);
    match f
    case Host => Span(k.serverFrom, k.serverEnd - k.serverFrom)
    case UserInfo | Port => Span(0, 0)
    case _ => PartOf(isConnect, buf, f)
  }

  lemma LabelOfState(isConnect: bool, buf: Bytes, i: nat, f: Field)
    requires i < |buf|
    ensures var sp := OuterPart(isConnect, buf, f);
            LabelOf(StateAt(isConnect, buf, CutOf(isConnect, buf), i + 1)) == In(f) <==> sp.off <= i < sp.off + sp.len
  {
    hide CutOf, ServerCutOf;
  }

  /** The labels of a URL are its parts. */
  lemma LabelsArePart(isConnect: bool, buf: Bytes, f: Field)
    requires Fits(isConnect, buf)
    ensures var sp, labels := OuterPart(isConnect, buf, f), UrlLabels(StartState(isConnect), buf);
            && (forall i :: 0 <= i < |buf| ==> (labels[i] == In(f) <==> sp.off <= i < sp.off + sp.len))
            && (In(f) in labels <==> sp.len > 0)
            && sp.off + sp.len <= |buf|
  {
    hide CutOf, UrlLabels, UrlState, StateAt, FitsAt, LabelOf;
    var sp, start := OuterPart(isConnect, buf, f), StartState(isConnect);
    var labels := UrlLabels(start, buf);
    forall i | 0 <= i < |buf| ensures labels[i] == In(f) <==> sp.off <= i < sp.off + sp.len {
      UrlLabelAt(start, buf, i);
      UrlStates(isConnect, buf, i + 1);
      LabelOfState(isConnect, buf, i, f);
    }
    if sp.len > 0 {
      assert labels[sp.off] == In(f);
    }
  }

  lemma SpanIs(sp: Span, from: nat, labels: seq<Label>, f: Field, lo: nat, len: nat)
    requires Spans(sp, from, labels, f) && from <= lo && lo + len <= from + |labels|
    requires forall i :: 0 <= i < |labels| ==> (labels[i] == In(f) <==> lo <= from + i < lo + len)
    ensures sp == Span(lo, len)
  {
    assert labels[sp.off - from] == In(f);
    assert labels[sp.off + sp.len - 1 - from] == In(f);
    assert labels[lo - from] == In(f);
    assert labels[lo + len - 1 - from] == In(f);
  }

  lemma ServerIsPart(isConnect: bool, buf: Bytes)
    requires Fits(isConnect, buf)
    ensures ServerPart(isConnect, buf) == ServerText(isConnect, buf)
  {
    hide CutOf, UrlLabels, Select, Fits;
    var labels, k := UrlLabels(StartState(isConnect), buf), CutOf(isConnect, buf);
    LabelsArePart(isConnect, buf, Host);
    var sp := Span(k.serverFrom, k.serverEnd - k.serverFrom);
    if sp.len > 0 {
      assert Spans(sp, 0, labels, Host);
      WholeSpan(buf, labels, Host, sp);
    } else {
      SelectNone(buf, labels, Host);
    }
  }

  lemma {:induction false} SawAtIs(start: State, buf: Bytes, n: nat)
    requires n <= |buf|
    ensures SawAt(start, buf[..n]) <==> exists j :: 0 < j <= n && UrlState(start, buf[..j]).ServerWithAt?
  {
    hide UrlState;
    if n > 0 {
      SawAtIs(start, buf, n - 1);
      assert buf[..n][..n - 1] == buf[..n - 1];
    }
  }

  lemma WithAtIs(isConnect: bool, buf: Bytes, j: nat)
    requires Fits(isConnect, buf) && 0 < j <= |buf|
    ensures var k := CutOf(isConnect, buf);
            UrlState(StartState(isConnect), buf[..j]).ServerWithAt?
            <==> k.serverFrom < j <= k.serverEnd && buf[j - 1] == '@'
  {
    hide CutOf, UrlState, FitsAt;
    UrlStates(isConnect, buf, j);
  }

  lemma HasUserIs(v: Bytes)
    ensures ServerCutOf(v).hasUser <==> exists i :: 0 <= i < |v| && v[i] == '@'
  {
  }

  /** A user info is looked for exactly if there is an `@` in the server part. */
  lemma SawAtIsThere(isConnect: bool, buf: Bytes)
    requires Fits(isConnect, buf)
    ensures SawAt(StartState(isConnect), buf) <==> ServerCutOf(ServerText(isConnect, buf)).hasUser
  {
    hide CutOf, UrlState, Fits, ServerCutOf, SawAt;
    var k, v, start := CutOf(isConnect, buf), ServerText(isConnect, buf), StartState(isConnect);
    SawAtIs(start, buf, |buf|);
    HasUserIs(v);
    assert buf[..|buf|] == buf;
    if SawAt(start, buf) {
      var j :| 0 < j <= |buf| && UrlState(start, buf[..j]).ServerWithAt?;
      WithAtIs(isConnect, buf, j);
      assert v[j - 1 - k.serverFrom] == '@';
    }
    if ServerCutOf(v).hasUser {
      var i :| 0 <= i < |v| && v[i] == '@';
      WithAtIs(isConnect, buf, k.serverFrom + i + 1);
    }
  }

  /** Where user info, host and port lie within the server part. */
  function InnerPart(v: Bytes, f: Field): Span {
    var s := ServerCutOf(v);
    match f
    case UserInfo => Span(0, s.userEnd)
    case Host => Span(s.hostFrom, s.hostEnd - s.hostFrom)
    case Port => if s.colon < |v| then Span(s.colon + 1, |v| - s.colon - 1) else Span(|v|, 0)
    case _ => Span(0, 0)
  }

  lemma LabelOfHostState(v: Bytes, i: nat, f: Field)
    requires i < |v|
    ensures var sp := InnerPart(v, f);
            HostLabelOf(HostStateAt(v, ServerCutOf(v), i + 1)) == In(f) <==> sp.off <= i < sp.off + sp.len
  {
    hide Until;
  }

  lemma HostLabelsArePart(v: Bytes, f: Field)
    requires WellServer(v)
    ensures var sp, labels := InnerPart(v, f), HostLabels(HostStartOf(ServerCutOf(v).hasUser), v);
            && (forall i :: 0 <= i < |v| ==> (labels[i] == In(f) <==> sp.off <= i < sp.off + sp.len))
            && (In(f) in labels <==> sp.len > 0)
            && sp.off + sp.len <= |v|
  {
    hide ServerCutOf, HostLabels, HostStateOf, HostStateAt, FitsServer, HostLabelOf, WellServer, HostStartOf;
    var k := ServerCutOf(v);
    var sp, labels := InnerPart(v, f), HostLabels(HostStartOf(k.hasUser), v);
    forall i | 0 <= i < |v| ensures FitsServer(v, k, i) { WellServerFits(v, i); }
    forall i | 0 <= i < |v| ensures labels[i] == In(f) <==> sp.off <= i < sp.off + sp.len {
      HostLabelAt(HostStartOf(k.hasUser), v, i);
      HostStates(v, i + 1);
      LabelOfHostState(v, i, f);
    }
    if sp.len > 0 {
      assert labels[sp.off] == In(f);
    }
  }

  lemma PortIsPart(v: Bytes)
    requires WellServer(v)
    ensures var sp := InnerPart(v, Port);
            && sp.off + sp.len <= |v|
            && Select(v, HostLabels(HostStartOf(ServerCutOf(v).hasUser), v), Port) == TextAt(v, sp)
  {
    hide ServerCutOf, HostLabels, Select, WellServer;
    var labels, sp := HostLabels(HostStartOf(ServerCutOf(v).hasUser), v), InnerPart(v, Port);
    HostLabelsArePart(v, Port);
    if sp.len > 0 {
      WholeSpan(v, labels, Port, sp);
    } else {
      SelectNone(v, labels, Port);
    }
  }

  lemma SubSlice(buf: Bytes, lo: nat, hi: nat, sp: Span)
    requires lo <= hi <= |buf| && sp.off + sp.len <= hi - lo
    ensures TextAt(buf[lo..hi], sp) == TextAt(buf, Span(lo + sp.off, sp.len))
  {
    var inner := buf[lo..hi];
    var a, b := inner[sp.off..sp.off + sp.len], buf[lo + sp.off..lo + sp.off + sp.len];
    assert |a| == |b|;
    assert forall i :: 0 <= i < |a| ==> a[i] == inner[sp.off + i] == buf[lo + sp.off + i] == b[i];
    assert a == b;
  }

  lemma PartIsInner(isConnect: bool, buf: Bytes, f: Field)
    requires OfServer(f)
    ensures var k, v := CutOf(isConnect, buf), ServerText(isConnect, buf);
            && PartOf(isConnect, buf, f).off == k.serverFrom + InnerPart(v, f).off
            && PartOf(isConnect, buf, f).len == InnerPart(v, f).len
            && InnerPart(v, f).off + InnerPart(v, f).len <= |v|
            && TextAt(buf, PartOf(isConnect, buf, f)) == TextAt(v, InnerPart(v, f))
  {
    hide CutOf, ServerCutOf, TextAt;
    var k := CutOf(isConnect, buf);
    SubSlice(buf, k.serverFrom, k.serverEnd, InnerPart(ServerText(isConnect, buf), f));
  }

  lemma ServerLabelsAre(isConnect: bool, buf: Bytes)
    requires Fits(isConnect, buf)
    ensures var v := ServerText(isConnect, buf);
            && ServerPart(isConnect, buf) == v
            && ServerLabels(isConnect, buf) == HostLabels(HostStartOf(ServerCutOf(v).hasUser), v)
            && (ServerEnds(isConnect, buf) <==> WellServer(v))
  {
    hide Fits, CutOf, ServerCutOf, SawAt, UrlLabels, HostLabels, HostStateOf, HostStartOf, WellServer, HostMayEnd;
    ServerIsPart(isConnect, buf);
    SawAtIsThere(isConnect, buf);
    WellServerIs(ServerText(isConnect, buf));
  }

  lemma PortFitsIs(isConnect: bool, buf: Bytes)
    requires Fits(isConnect, buf) && WellServer(ServerText(isConnect, buf))
    ensures PortFits(isConnect, buf) <==> WellPort(TextAt(buf, PartOf(isConnect, buf, Port)))
  {
    hide Fits, CutOf, ServerCutOf, HostLabels, HostStartOf, WellServer, InnerPart, PartOf;
    ServerLabelsAre(isConnect, buf);
    PortIsPart(ServerText(isConnect, buf));
    PartIsInner(isConnect, buf, Port);
  }

  /** There is a server part exactly if one has been announced and is not empty. */
  lemma ServerThere(isConnect: bool, buf: Bytes)
    ensures var k := CutOf(isConnect, buf);
            && (WellServer(ServerText(isConnect, buf)) ==> k.serverFrom < k.serverEnd)
            && (!HasServer(isConnect, buf) ==>
                  k.serverFrom == k.serverEnd == 0 && ServerText(isConnect, buf) == [] && PortPartEmpty(isConnect, buf))
            && (HasScheme(isConnect, buf) && Fits(isConnect, buf) ==> k.schemeEnd > 0)
            && (!HasScheme(isConnect, buf) ==> k.schemeEnd == 0)
            && OuterPart(isConnect, buf, SchemaField).len == k.schemeEnd
  {
    hide Until, Past;
    var k := CutOf(isConnect, buf);
    if HasScheme(isConnect, buf) && Fits(isConnect, buf) {
      assert FitsAt(buf, k, 0);
    }
  }

  predicate PortPartEmpty(isConnect: bool, buf: Bytes) {
    PartOf(isConnect, buf, Port).len == 0
  }

  lemma NoPort(isConnect: bool, buf: Bytes)
    requires PortPartEmpty(isConnect, buf)
    ensures WellPort(TextAt(buf, PartOf(isConnect, buf, Port)))
  {
    assert TextAt(buf, PartOf(isConnect, buf, Port)) == [];
  }

  /** A URL of CONNECT has nothing but host and port. */
  predicate OnlyHostPort(isConnect: bool, buf: Bytes) {
    var labels, server := UrlLabels(StartState(isConnect), buf), ServerLabels(isConnect, buf);
    && In(Host) in labels && In(Port) in server && In(UserInfo) !in server
    && forall i :: 0 <= i < |labels| && labels[i].In? ==> labels[i].field == Host
  }

  /** A field has bytes exactly if there are bytes with its label. */
  lemma PartThere(isConnect: bool, buf: Bytes, f: Field)
    requires Fits(isConnect, buf) && WellServer(ServerText(isConnect, buf))
    ensures PartOf(isConnect, buf, f).len > 0 <==>
            if OfServer(f) then In(f) in ServerLabels(isConnect, buf)
            else In(f) in UrlLabels(StartState(isConnect), buf)
  {
    hide Fits, CutOf, ServerCutOf, UrlLabels, HostLabels, HostStartOf, WellServer, InnerPart;
    if OfServer(f) {
      hide PartOf;
      ServerLabelsAre(isConnect, buf);
      HostLabelsArePart(ServerText(isConnect, buf), f);
      PartIsInner(isConnect, buf, f);
    } else {
      LabelsArePart(isConnect, buf, f);
    }
  }

  lemma HostThere(isConnect: bool, buf: Bytes)
    requires Fits(isConnect, buf) && WellServer(ServerText(isConnect, buf))
    ensures var labels := UrlLabels(StartState(isConnect), buf);
            In(Host) in labels && In(UserInfo) !in labels && In(Port) !in labels
    ensures PartOf(isConnect, buf, Host).len > 0
  {
    hide Fits, CutOf, ServerCutOf, UrlLabels;
    LabelsArePart(isConnect, buf, Host);
    LabelsArePart(isConnect, buf, UserInfo);
    LabelsArePart(isConnect, buf, Port);
  }

  lemma OnlyHostPortIs(isConnect: bool, buf: Bytes)
    requires Fits(isConnect, buf) && WellServer(ServerText(isConnect, buf))
    ensures OnlyHostPort(isConnect, buf)
        <==> forall f :: PartOf(isConnect, buf, f).len > 0 <==> f == Host || f == Port
  {
    hide Fits, CutOf, UrlLabels, WellServer, PartOf, OuterPart, ServerLabels;
    var labels, server := UrlLabels(StartState(isConnect), buf), ServerLabels(isConnect, buf);
    forall f
      ensures PartOf(isConnect, buf, f).len > 0 <==>
              if OfServer(f) then In(f) in server else In(f) in labels
    {
      PartThere(isConnect, buf, f);
    }
    HostThere(isConnect, buf);
    assert forall i :: 0 <= i < |labels| && labels[i].In? ==> In(labels[i].field) in labels;
  }

  /** A URL is accepted by the states exactly if it is well-formed. */
  lemma AcceptedIsWell(isConnect: bool, buf: Bytes)
    ensures Accepted(isConnect, buf) <==> WellUrl(isConnect, buf)
  {
    hide CutOf, StateAt, FitsAt, UrlState, UrlLabels, WellServer, PartOf, WellPort, ServerEnds, PortFits, ServerLabels,
        ServerText;
    UrlStates(isConnect, buf, |buf|);
    assert buf[..|buf|] == buf;
    hide Fits;
    if !Fits(isConnect, buf) {
      if WellUrl(isConnect, buf) {
        WellFits(isConnect, buf);
        assert false;
      }
    } else if buf != [] {
      FitsOutside(isConnect, buf);
      ServerThere(isConnect, buf);
      hide HasScheme;
      LabelsArePart(isConnect, buf, SchemaField);
      LabelsArePart(isConnect, buf, Host);
      assert In(SchemaField) in UrlLabels(StartState(isConnect), buf) <==> HasScheme(isConnect, buf);
      if HasServer(isConnect, buf) {
        ServerLabelsAre(isConnect, buf);
        if WellServer(ServerText(isConnect, buf)) {
          HostThere(isConnect, buf);
          PortFitsIs(isConnect, buf);
          OnlyHostPortIs(isConnect, buf);
        }
      } else {
        NoPort(isConnect, buf);
      }
    }
  }

  lemma FieldIsPart(isConnect: bool, buf: Bytes, fields: Fields, server: Span, f: Field)
    requires WellUrl(isConnect, buf) && RightFields(isConnect, buf, fields, server)
    ensures f in fields <==> PartOf(isConnect, buf, f).len > 0
    ensures f in fields ==> fields[f] == PartOf(isConnect, buf, f)
  {
    hide CutOf, UrlLabels, HostLabels, WellServer, InOrder, Spans, ServerCutOf, ServerPart;
    var k, v, labels := CutOf(isConnect, buf), ServerText(isConnect, buf), UrlLabels(StartState(isConnect), buf);
    WellFits(isConnect, buf);
    hide Fits, WellUrl;
    ServerThere(isConnect, buf);
    LabelsArePart(isConnect, buf, Host);
    if OfServer(f) {
      if HasServer(isConnect, buf) {
        hide PartOf, InnerPart, ServerText;
        SpanIs(server, 0, labels, Host, k.serverFrom, k.serverEnd - k.serverFrom);
        ServerLabelsAre(isConnect, buf);
        HostLabelsArePart(v, f);
        PartIsInner(isConnect, buf, f);
        if f in fields {
          SpanIs(fields[f], server.off, ServerLabels(isConnect, buf), f, PartOf(isConnect, buf, f).off,
                PartOf(isConnect, buf, f).len);
        }
      }
    } else {
      LabelsArePart(isConnect, buf, f);
      if f in fields {
        SpanIs(fields[f], 0, labels, f, PartOf(isConnect, buf, f).off, PartOf(isConnect, buf, f).len);
      }
    }
  }

  /** And its fields are its parts. */
  lemma FieldsAreParts(isConnect: bool, buf: Bytes, fields: Fields, server: Span)
    requires WellUrl(isConnect, buf) && RightFields(isConnect, buf, fields, server)
    ensures Parts(isConnect, buf, fields)
  {
    hide PartOf, WellUrl, RightFields;
    forall f
      ensures f in fields <==> PartOf(isConnect, buf, f).len > 0
      ensures f in fields ==> fields[f] == PartOf(isConnect, buf, f)
    {
      FieldIsPart(isConnect, buf, fields, server, f);
    }
  }

  /** The fields of the first pass are the parts of the URL, the server part being one. */
  predicate OuterParts(isConnect: bool, buf: Bytes, fields: Fields) {
    forall f ::
      && (f in fields <==> OuterPart(isConnect, buf, f).len > 0)
      && (f in fields ==> fields[f] == OuterPart(isConnect, buf, f))
  }

  lemma SplitIs(isConnect: bool, buf: Bytes)
    ensures UrlState(StartState(isConnect), buf).Dead? <==> !Fits(isConnect, buf)
  {
    hide UrlState, CutOf, FitsAt;
    UrlStates(isConnect, buf, |buf|);
    assert buf[..|buf|] == buf;
  }

  lemma SplitFields(isConnect: bool, buf: Bytes, fields: Fields)
    requires Fits(isConnect, buf) && Covers(fields, 0, UrlLabels(StartState(isConnect), buf))
    ensures OuterParts(isConnect, buf, fields)
  {
    hide Fits, CutOf, UrlLabels, OuterPart;
    var labels := UrlLabels(StartState(isConnect), buf);
    forall f
      ensures f in fields <==> OuterPart(isConnect, buf, f).len > 0
      ensures f in fields ==> fields[f] == OuterPart(isConnect, buf, f)
    {
      var sp := OuterPart(isConnect, buf, f);
      LabelsArePart(isConnect, buf, f);
      Present(fields, 0, labels, f);
      if f in fields {
        SpanIs(fields[f], 0, labels, f, sp.off, sp.len);
      }
    }
  }
}
