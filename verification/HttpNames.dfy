/** Which names of header fields the parser recognises. */
module HttpNames {
  import opened HttpTypes
  import opened HttpStep
  import opened HttpRun
  import opened HttpBulk

  // ---------- names ----------

  function LowerByte(c: Byte): Byte {
    if 'A' <= c <= 'Z' then (c as int + 32) as char else c
  }

  function LowerCase(bytes: Bytes): (low: Bytes)
    ensures |low| == |bytes|
    decreases |bytes|
  {
    if bytes == [] then [] else LowerCase(bytes[..|bytes| - 1]) + [LowerByte(bytes[|bytes| - 1])]
  }

  predicate TokenByte(c: Byte) {
    'a' <= c <= 'z' || 'A' <= c <= 'Z' || '0' <= c <= '9' || c == '!' || c == '#' || c == '$' || c == '%' || c == '&'
    || c == '\'' || c == '*' || c == '+' || c == '-' || c == '.' || c == '^' || c == '_' || c == '`' || c == '|'
    || c == '~'
  }

  predicate IsName(name: Bytes) {
    name != [] && forall i :: 0 <= i < |name| ==> TokenByte(name[i])
  }

  /** The only known name that can begin with these letters, if there is one. */
  function WordFor(low: Bytes): Bytes
    requires low != []
  {
    if low[0] == 'c' then if |low| >= 4 && low[3] == 't' then "content-length" else "connection"
    else if low[0] == 'p' then "proxy-connection"
    else if low[0] == 't' then "transfer-encoding"
    else if low[0] == 'u' then "upgrade"
    else []
  }

  /** The state of the recogniser after the first letters of a name, given in lower case. */
  function NameState(low: Bytes): HeaderState
    requires low != []
  {
    var word := WordFor(low);
    if !(low <= word) then HGeneral
    else if |low| < |word| then PartState(low)
    else if low[0] == 'c' && low[3] == 't' then HContentLength
    else if low[0] == 't' then HTransferEncoding
    else if low[0] == 'u' then HUpgrade
    else HConnection
  }

  function PartState(low: Bytes): HeaderState
    requires low != []
  {
    if low[0] == 'c' then
      if |low| == 1 then HC else if |low| == 2 then HCO else if |low| == 3 then HCON
      else if low[3] == 't' then MatchingContentLength else MatchingConnection
    else if low[0] == 'p' then MatchingProxyConnection
    else if low[0] == 't' then MatchingTransferEncoding
    else MatchingUpgrade
  }

  lemma TokenIs(c: Byte)
    ensures Token(c) != NUL <==> TokenByte(c)
    ensures TokenByte(c) ==> Token(c) == LowerByte(c)
  {
  }

  lemma WordsAre()
    ensures CONNECTION == "connection" && PROXY_CONNECTION == "proxy-connection" && CONTENT_LENGTH == "content-length"
    ensures TRANSFER_ENCODING == "transfer-encoding" && UPGRADE == "upgrade"
  {
  }

  lemma Longer(low: Bytes, c: Byte, word: Bytes)
    ensures low + [c] <= word <==> low <= word && |low| < |word| && word[|low|] == c
    ensures low + [c] == word <==> low <= word && |low| == |word| - 1 && word[|low|] == c
  {
    if low + [c] <= word {
      assert (low + [c])[|low|] == c && (low + [c])[..|low|] == low;
      assert word[..|low|] == low;
    }
    if low <= word && |low| < |word| && word[|low|] == c {
      assert word[..|low| + 1] == word[..|low|] + [c];
      assert word[..|low|] == low;
      if |low| == |word| - 1 {
        assert word[..|low| + 1] == word;
      }
    }
  }

  lemma MatchStep(p: Parser, word: Bytes, low: Bytes, c: Byte, whole: HeaderState)
    requires low != [] && low <= word && |low| < |word| && p.index == |low| - 1 && c != NUL
    ensures var q := MatchWord(p, word, c, whole, HGeneral);
            && q.index == |low|
            && q.headerState == if word[|low|] != c then HGeneral else if |low| + 1 == |word| then whole
                else p.headerState
  {
  }

  /** The letter that follows leaves the word that can be meant, except for the fourth of `cont`. */
  lemma NextWord(low: Bytes, c: Byte)
    requires low != []
    ensures var next := low + [c];
            && next != [] && next[0] == low[0] && (|low| >= 4 ==> next[3] == low[3])
            && (|low| == 3 ==> next[3] == c)
            && (low[0] != 'c' || |low| != 3 ==> WordFor(next) == WordFor(low))
            && (low[0] == 'c' && |low| == 3 ==> WordFor(next) == if c == 't' then "content-length" else "connection")
  {
    hide LowerByte;
  }

  /** The letters so far do not begin a known name, or are one: no more letters make them another. */
  lemma NoWord(low: Bytes, c: Byte)
    requires low != [] && (!(low <= WordFor(low)) || |low| == |WordFor(low)|)
    ensures low + [c] != [] && NameState(low + [c]) == HGeneral
  {
    NextWord(low, c);
    Longer(low, c, WordFor(low));
    if low[0] == 'c' && |low| == 3 {
      Longer(low, c, "connection");
      Longer(low, c, "content-length");
      assert "connection"[..3] == "con" == "content-length"[..3];
      assert low <= "content-length" ==> low == "con";
    }
  }

  /** The first letters of the names with `c`. */
  lemma NextOfC(low: Bytes, c: Byte)
    requires low != [] && low[0] == 'c' && |low| < 4 && low <= WordFor(low)
    ensures low + [c] != []
    ensures NameState(low + [c]) ==
            if |low| == 1 && c == 'o' then HCO
            else if |low| == 2 && c == 'n' then HCON
            else if |low| == 3 && c == 'n' then MatchingConnection
            else if |low| == 3 && c == 't' then MatchingContentLength
            else HGeneral
  {
    NextWord(low, c);
    Longer(low, c, WordFor(low + [c]));
    Longer(low, c, WordFor(low));
    if |low| == 3 {
      assert "connection"[..3] == "con" == "content-length"[..3];
      assert low == "con";
    }
  }

  lemma NextOfWord(low: Bytes, c: Byte)
    requires low != [] && (low[0] != 'c' || |low| >= 4) && low <= WordFor(low) && |low| < |WordFor(low)|
    ensures low + [c] != []
    ensures NameState(low + [c]) ==
            if WordFor(low)[|low|] != c then HGeneral
            else if |low| + 1 == |WordFor(low)| then NameState(WordFor(low))
            else NameState(low)
  {
    NextWord(low, c);
    Longer(low, c, WordFor(low));
  }

  /** One more letter. */
  lemma NameStep(p: Parser, low: Bytes, ch: Byte)
    requires low != [] && TokenByte(ch)
    requires p.headerState == NameState(low) && (p.headerState != HGeneral ==> p.index == |low| - 1)
    ensures var q := FieldChar(p, ch);
            && q.headerState == NameState(low + [LowerByte(ch)])
            && (q.headerState != HGeneral ==> q.index == |low|)
  {
    TokenIs(ch);
    WordsAre();
    hide MatchWord, LowerByte, TokenByte, Token;
    var c, word := LowerByte(ch), WordFor(low);
    if !(low <= word) || |low| == |word| {
      NoWord(low, c);
      hide WordFor;
    } else if low[0] == 'c' && |low| < 4 {
      NextOfC(low, c);
    } else {
      NextOfWord(low, c);
      MatchStep(p, word, low, c, NameState(word));
    }
  }

  /** The flag of Transfer-Encoding is raised with the last letter of that word. */
  lemma CodingFlag(p: Parser, low: Bytes, ch: Byte)
    requires low != [] && p.headerState == NameState(low)
    requires FieldChar(p, ch).headerState == NameState(low + [LowerByte(ch)])
    ensures FieldChar(p, ch).transferEncoding <==>
            p.transferEncoding || low + [LowerByte(ch)] == "transfer-encoding"
  {
    var next := low + [LowerByte(ch)];
    CodingState(next);
    if next == "transfer-encoding" {
      assert low == next[..|low|] == "transfer-encodin";
    }
    hide Token, NameState, LowerByte;
    FlagRaised(p, ch);
  }

  lemma FlagRaised(p: Parser, ch: Byte)
    ensures var q := FieldChar(p, ch);
            q.transferEncoding <==>
            p.transferEncoding || (p.headerState.MatchingTransferEncoding? && q.headerState.HTransferEncoding?)
  {
    hide MatchWord, Token;
    var c := Token(ch);
    match p.headerState
    case MatchingConnection => MatchWordOnly(p, CONNECTION, c, HConnection, HGeneral, 0);
    case MatchingProxyConnection => MatchWordOnly(p, PROXY_CONNECTION, c, HConnection, HGeneral, 0);
    case MatchingContentLength => MatchWordOnly(p, CONTENT_LENGTH, c, HContentLength, HGeneral, 0);
    case MatchingTransferEncoding => MatchWordOnly(p, TRANSFER_ENCODING, c, HTransferEncoding, HGeneral, 0);
    case MatchingUpgrade => MatchWordOnly(p, UPGRADE, c, HUpgrade, HGeneral, 0);
    case _ =>
  }

  // ---------- names read ----------

  /** What a name means to the parser. */
  datatype Meaning = IsConnection | IsLength | IsCoding | IsUpgrade | IsOther

  function MeaningOf(name: Bytes): Meaning {
    var low := LowerCase(name);
    if low == "connection" || low == "proxy-connection" then IsConnection
    else if low == "content-length" then IsLength
    else if low == "transfer-encoding" then IsCoding
    else if low == "upgrade" then IsUpgrade
    else IsOther
  }

  /** The state of the recogniser tells what the name means. */
  predicate Tells(h: HeaderState, m: Meaning) {
    match m
    case IsConnection => h.HConnection?
    case IsLength => h.HContentLength?
    case IsCoding => h.HTransferEncoding?
    case IsUpgrade => h.HUpgrade?
    case IsOther =>
      h.HGeneral? || h.HC? || h.HCO? || h.HCON? || h.MatchingConnection? || h.MatchingProxyConnection?
      || h.MatchingContentLength? || h.MatchingTransferEncoding? || h.MatchingUpgrade?
  }

  lemma NameStateTells(name: Bytes)
    requires name != []
    ensures Tells(NameState(LowerCase(name)), MeaningOf(name))
  {
    hide LowerCase;
    var low := LowerCase(name);
    assert low <= WordFor(low) && |low| == |WordFor(low)| ==> low == WordFor(low);
  }

  lemma CodingState(low: Bytes)
    requires low != []
    ensures NameState(low).HTransferEncoding? <==> low == "transfer-encoding"
  {
    assert low <= WordFor(low) && |low| == |WordFor(low)| ==> low == WordFor(low);
  }

  lemma FirstOfName(p: Parser, ch: Byte)
    requires TokenByte(ch) && p.headerState == FirstFieldState(Token(ch))
    ensures LowerCase([ch]) == [LowerByte(ch)] && p.headerState == NameState([LowerByte(ch)])
  {
    TokenIs(ch);
    assert [ch][..0] == [];
  }

  lemma LowerPrefix(name: Bytes, k: nat)
    requires k < |name|
    ensures LowerCase(name[..k + 1]) == LowerCase(name[..k]) + [LowerByte(name[k])]
  {
    assert name[..k + 1][..k] == name[..k];
  }

  /** The recogniser behind the first `k` letters of a name, from the state that its first letter leads to. */
  lemma {:induction false} NameChars(p: Parser, name: Bytes, k: nat)
    requires IsName(name) && 0 < k <= |name|
    requires p.headerState == FirstFieldState(Token(name[0])) && p.index == 0
    ensures var q := FieldChars(p, name[1..k]);
            && q.headerState == NameState(LowerCase(name[..k])) && (q.headerState != HGeneral ==> q.index == k - 1)
            && (q.transferEncoding <==> p.transferEncoding || "transfer-encoding" <= LowerCase(name[..k]))
    decreases k
  {
    hide FieldChar, NameState, TokenByte, Token, LowerByte, LowerCase;
    if k == 1 {
      assert name[1..1] == [] && name[..1] == [name[0]];
      FirstOfName(p, name[0]);
    } else {
      var n := k - 1;
      NameChars(p, name, n);
      assert name[1..k][..n - 1] == name[1..n] && name[1..k][n - 1] == name[n];
      LowerPrefix(name, n);
      NameStep(FieldChars(p, name[1..n]), LowerCase(name[..n]), name[n]);
      Longer(LowerCase(name[..n]), LowerByte(name[n]), "transfer-encoding");
      CodingFlag(FieldChars(p, name[1..n]), LowerCase(name[..n]), name[n]);
    }
  }

  /** The parser behind a name and its colon. */
  function AfterName(s: Sim, name: Bytes, h: HeaderState, index: nat): Sim {
    var p := s.parser;
    Sim(p.(state := ValueDiscardWs, headerState := h, index := index, nread := p.nread + |name| + 1,
        transferEncoding := p.transferEncoding || "transfer-encoding" <= LowerCase(name)),
        View(Emit(s.view.log, FieldKind, name), NoMark), s.consumed + |name| + 1, false)
  }

  lemma NameBegins(s: Sim, ch: Byte)
    requires !Halted(s) && s.parser.state.HeaderFieldStart? && s.view.mark.NoMark? && s.parser.nread < 81920
    requires TokenByte(ch)
    ensures var p := s.parser;
            StepByte(s, ch) ==
            Sim(p.(state := HeaderField, headerState := FirstFieldState(Token(ch)), index := 0, nread := p.nread + 1),
                s.view.(mark := Open(FieldKind, [ch])), s.consumed + 1, false)
  {
    TokenIs(ch);
    assert ch != CR && ch != LF && [] + [ch] == [ch];
    hide Token, FirstFieldState, TokenByte;
    var p := Count(s.parser);
    assert [] + [Mark(FieldKind)] == [Mark(FieldKind)];
    assert Dispatch(p, ch) == Out(p.(state := HeaderField, headerState := FirstFieldState(Token(ch)), index := 0),
                                  [Mark(FieldKind)], false);
    PerformOne(s.view, Mark(FieldKind), ch);
    hide Dispatch, PerformAll;
  }

  lemma NameEnds(s: Sim, run: Bytes)
    requires !Halted(s) && s.parser.state.HeaderField? && s.view.mark == Open(FieldKind, run) && s.parser.nread < 81920
    ensures StepByte(s, ':') == Sim(s.parser.(state := ValueDiscardWs, nread := s.parser.nread + 1),
                View(Emit(s.view.log, FieldKind, run), NoMark), s.consumed + 1, false)
  {
    hide Emit;
    assert Token(':') == NUL;
    hide Token;
  }

  /**
   * At the start of a header, a name and a colon: the field callbacks receive exactly the name, and the parser knows it
   * exactly if it spells, in letters of any case, one of five words.
   */
  lemma NameRead(s: Sim, name: Bytes)
    requires !Halted(s) && s.parser.state.HeaderFieldStart? && s.view.mark.NoMark?
    requires IsName(name) && s.parser.nread + |name| < 81920
    ensures var r := Run(s, name + [':']);
            && Tells(r.parser.headerState, MeaningOf(name))
            && r == AfterName(s, name, r.parser.headerState, r.parser.index)
  {
    hide StepByte, FieldChars, NameState, TokenByte, Token, LowerCase, MeaningOf, Tells, FirstFieldState, Emit;
    var ch, rest := name[0], name[1..];
    var s1 := Run(s, [ch]);
    assert name == [ch] + rest;
    RunOne(s, ch);
    NameBegins(s, ch);
    RunConcat(s, [ch], rest);
    RestAreTokens(name);
    FieldRun(s1, rest);
    NameChars(s1.parser, name, |name|);
    assert name[..|name|] == name && name[1..|name|] == rest;
    NameStateTells(name);
    var s2 := Run(s, name);
    NameEnds(s2, name);
    RunConcat(s, name, [':']);
    RunOne(s2, ':');
  }

  lemma RestAreTokens(name: Bytes)
    requires IsName(name)
    ensures AllTokens(name[1..])
  {
    forall i | 0 <= i < |name| - 1 ensures Token(name[1..][i]) != NUL {
      TokenIs(name[i + 1]);
    }
  }

  /** Any other byte in a name is refused. */
  lemma BadNameRefused(s: Sim, c: Byte)
    requires !Halted(s) && s.parser.state.HeaderField? && s.parser.nread < 81920 && !TokenByte(c) && c != ':'
    ensures StepByte(s, c).parser.errno == InvalidHeaderToken
  {
    TokenIs(c);
    hide TokenByte, Token, FieldChar;
  }
}
