/** The method recogniser accepts exactly the known methods. */
module HttpMethod {
  import opened HttpTypes
  import opened HttpStep
  import opened HttpRun
  import opened HttpAsserts

  /** The method assumed after a word, if every letter so far was accepted. */
  function Guess(word: Bytes): Option<Method>
    requires word != []
    decreases |word|
  {
    var n := |word| - 1;
    if n == 0 then
      if StartsMethod(word[0]) then Some(FirstGuess(word[0])) else None
    else
      match Guess(word[..n])
      case None => None
      case Some(m) => NextGuess(m, n, word[n])
  }

  function NextGuess(m: Method, n: nat, ch: Byte): Option<Method> {
    if ch == NUL then None
    else if ch == CharAt(MethodString(m), n) then Some(m)
    else if 'A' <= ch <= 'Z' || ch == '-' then Retarget(m, n, ch)
    else None
  }

  // ---------- sound: the assumed method begins with the word ----------

  lemma FirstSound(ch: Byte)
    requires StartsMethod(ch)
    ensures [ch] <= MethodString(FirstGuess(ch))
  {
  }

  /** A correction agrees with the old method on the letters before it, and has the new letter. */
  lemma RetargetSound(m: Method, n: nat, ch: Byte)
    requires Retarget(m, n, ch).Some?
    ensures var r := MethodString(Retarget(m, n, ch).value);
            n < |MethodString(m)| && n < |r| && r[n] == ch && r[..n] == MethodString(m)[..n]
  {
    hide MethodString, Retarget;
    match m
    case POST | PUT | CONNECT | PROPFIND | SUBSCRIBE => RetargetSoundEarly(m, n, ch);
    case _ => RetargetSoundLate(m, n, ch);
  }

  lemma RetargetSoundEarly(m: Method, n: nat, ch: Byte)
    requires m.POST? || m.PUT? || m.CONNECT? || m.PROPFIND? || m.SUBSCRIBE?
    requires Retarget(m, n, ch).Some?
    ensures var r := MethodString(Retarget(m, n, ch).value);
            n < |MethodString(m)| && n < |r| && r[n] == ch && r[..n] == MethodString(m)[..n]
  {
  }

  lemma RetargetSoundLate(m: Method, n: nat, ch: Byte)
    requires !(m.POST? || m.PUT? || m.CONNECT? || m.PROPFIND? || m.SUBSCRIBE?)
    requires Retarget(m, n, ch).Some?
    ensures var r := MethodString(Retarget(m, n, ch).value);
            n < |MethodString(m)| && n < |r| && r[n] == ch && r[..n] == MethodString(m)[..n]
  {
  }

  lemma {:induction false} GuessSound(word: Bytes)
    requires word != [] && Guess(word).Some?
    ensures word <= MethodString(Guess(word).value)
    decreases |word|
  {
    hide MethodString, Retarget, StartsMethod, FirstGuess;
    var n := |word| - 1;
    if n == 0 {
      assert word == [word[0]] && Guess(word) == Some(FirstGuess(word[0]));
      FirstSound(word[0]);
    } else {
      GuessSound(word[..n]);
      var m := Guess(word[..n]).value;
      if word[n] != CharAt(MethodString(m), n) {
        RetargetSound(m, n, word[n]);
      }
      var w := MethodString(Guess(word).value);
      assert w[..n] == word[..n] && w[n] == word[n];
      assert w[..n + 1] == word;
    }
  }

  // ---------- complete: every method is found ----------

  /** How many letters settle the method. */
  function SettledAt(m: Method): (k: nat)
    ensures k >= 1
  {
    match m
    case PUT | PATCH | PROPFIND | CHECKOUT | MOVE | MERGE | MSEARCH | SEARCH | SOURCE | LINK => 2
    case PURGE | COPY | MKACTIVITY | REBIND | UNSUBSCRIBE | UNBIND => 3
    case MKCALENDAR | UNLINK => 4
    case PROPPATCH => 5
    case _ => 1
  }

  /** The method assumed just before. */
  function Corrected(m: Method): Method {
    match m
    case PUT | PATCH | PROPFIND => POST
    case PURGE => PUT
    case CHECKOUT | COPY => CONNECT
    case MOVE | MERGE | MSEARCH | MKACTIVITY | MKCALENDAR => MKCOL
    case SEARCH | SOURCE => SUBSCRIBE
    case REBIND => REPORT
    case PROPPATCH => PROPFIND
    case LINK => LOCK
    case _ => UNLOCK
  }

  lemma SettledFirst(m: Method)
    requires SettledAt(m) == 1
    ensures Guess(MethodString(m)[..1]) == Some(m)
  {
    FirstLetter(m);
    hide MethodString, StartsMethod, FirstGuess;
    assert MethodString(m)[..1] == [MethodString(m)[0]];
  }

  lemma FirstLetter(m: Method)
    requires SettledAt(m) == 1
    ensures |MethodString(m)| >= 1 && StartsMethod(MethodString(m)[0]) && FirstGuess(MethodString(m)[0]) == m
  {
  }

  lemma CorrectedBy(m: Method)
    requires SettledAt(m) > 1
    ensures SettledAt(Corrected(m)) < SettledAt(m) <= |MethodString(m)|
    ensures NextGuess(Corrected(m), SettledAt(m) - 1, MethodString(m)[SettledAt(m) - 1]) == Some(m)
  {
  }

  /** A third of the methods. */
  function Third(m: Method): nat {
    match m
    case DELETE | GET | HEAD | POST | PUT | CONNECT | OPTIONS | TRACE | COPY | LOCK | MKCOL | MOVE => 0
    case PROPFIND | PROPPATCH | SEARCH | UNLOCK | BIND | REBIND | UNBIND | ACL | REPORT | MKACTIVITY => 1
    case _ => 2
  }

  /** A method string has neither a terminator nor a space inside. */
  lemma NoNul(m: Method, k: nat)
    requires k < |MethodString(m)|
    ensures MethodString(m)[k] != NUL && MethodString(m)[k] != ' '
  {
    hide MethodString;
    if Third(m) == 0 {
      NoNulEarly(m, k);
    } else if Third(m) == 1 {
      NoNulMiddle(m, k);
    } else {
      NoNulLate(m, k);
    }
  }

  lemma NoNulEarly(m: Method, k: nat)
    requires Third(m) == 0 && k < |MethodString(m)|
    ensures MethodString(m)[k] != NUL && MethodString(m)[k] != ' '
  {
  }

  lemma NoNulMiddle(m: Method, k: nat)
    requires Third(m) == 1 && k < |MethodString(m)|
    ensures MethodString(m)[k] != NUL && MethodString(m)[k] != ' '
  {
  }

  lemma NoNulLate(m: Method, k: nat)
    requires Third(m) == 2 && k < |MethodString(m)|
    ensures MethodString(m)[k] != NUL && MethodString(m)[k] != ' '
  {
  }

  /** From the letter that settles a method on, every beginning of its string assumes it. */
  lemma {:induction false} GuessPrefix(m: Method, k: nat)
    requires SettledAt(m) <= k <= |MethodString(m)|
    ensures Guess(MethodString(m)[..k]) == Some(m)
    decreases k
  {
    hide MethodString, Retarget, FirstGuess, StartsMethod;
    var w := MethodString(m);
    if k == 1 {
      SettledFirst(m);
    } else {
      assert w[..k][..k - 1] == w[..k - 1];
      NoNul(m, k - 1);
      if k > SettledAt(m) {
        GuessPrefix(m, k - 1);
      } else {
        CorrectedBy(m);
        var c := Corrected(m);
        if w[k - 1] != CharAt(MethodString(c), k - 1) {
          RetargetSound(c, k - 1, w[k - 1]);
        }
        GuessPrefix(c, k - 1);
      }
    }
  }

  lemma GuessComplete(m: Method)
    ensures MethodString(m) != [] && Guess(MethodString(m)) == Some(m)
  {
    hide Guess, MethodString;
    MethodLengths(m);
    if SettledAt(m) > 1 {
      CorrectedBy(m);
    }
    GuessPrefix(m, |MethodString(m)|);
    assert MethodString(m)[..|MethodString(m)|] == MethodString(m);
  }

  // ---------- the parser ----------

  predicate IsWord(word: Bytes) {
    word != [] && word[0] != CR && word[0] != LF && forall i :: 0 <= i < |word| ==> word[i] != ' '
  }

  /** A request has begun: what an earlier one left is gone. */
  function Begun(p: Parser, state: State, m: Method, n: nat): Parser {
    p.(state := state, verb := m, index := n, flags := NO_FLAGS, transferEncoding := false,
       contentLength := ULLONG_MAX, nread := p.nread + n)
  }

  /** What the run of a word leads to. */
  predicate AfterWord(s: Sim, r: Sim, g: Option<Method>, n: nat) {
    match g
    case None => r.parser.errno == InvalidMethod
    case Some(m) =>
      && !Halted(r) && r.parser == Begun(s.parser, ReqMethod, m, n)
      && (s.view.mark.NoMark? ==>
            r.view == s.view.(log := s.view.log + [Note(MessageBegin)]) && r.consumed == s.consumed + n)
  }

  lemma FirstStep(s: Sim, ch: Byte)
    requires !Halted(s) && s.parser.state.StartReq? && s.parser.nread < MAX_HEADER_SIZE && ch != CR && ch != LF
    ensures AfterWord(s, StepByte(s, ch), if StartsMethod(ch) then Some(FirstGuess(ch)) else None, 1)
  {
    PerformOne(s.view, Tell(MessageBegin), ch);
    hide PerformAll, StartsMethod, FirstGuess, IsAlpha;
    if StartsMethod(ch) {
      FirstIsLetter(ch);
    }
  }

  lemma NextStep(s: Sim, ch: Byte)
    requires !Halted(s) && s.parser.state.ReqMethod? && s.parser.nread < MAX_HEADER_SIZE && ch != ' '
    ensures var r := StepByte(s, ch);
            match NextGuess(s.parser.verb, s.parser.index, ch)
            case None => r.parser.errno == InvalidMethod
            case Some(m) =>
              && !Halted(r)
              && r.parser == s.parser.(verb := m, index := s.parser.index + 1, nread := s.parser.nread + 1)
              && (s.view.mark.NoMark? ==> r.view == s.view && r.consumed == s.consumed + 1)
  {
    hide MethodString, Retarget;
  }

  lemma {:induction false} WordRuns(s: Sim, word: Bytes)
    requires !Halted(s) && s.parser.state.StartReq? && s.parser.nread + |word| <= MAX_HEADER_SIZE && IsWord(word)
    ensures AfterWord(s, Run(s, word), Guess(word), |word|)
    decreases |word|
  {
    hide StepByte, NextGuess, StartsMethod, FirstGuess;
    var n := |word| - 1;
    if n == 0 {
      assert word[..0] == [] && Run(s, []) == s;
      FirstStep(s, word[0]);
    } else {
      WordRuns(s, word[..n]);
      var t := Run(s, word[..n]);
      if Halted(t) {
        HaltedByte(t, word[n]);
      } else {
        NextStep(t, word[n]);
      }
    }
  }

  lemma FirstIsLetter(ch: Byte)
    requires StartsMethod(ch)
    ensures IsAlpha(ch)
  {
  }

  /** The methods by their numbers, and the words that stand for them. */
  function MethodNumber(k: nat): Method
    requires k < 34
  {
    match k
    case 0 => DELETE case 1 => GET case 2 => HEAD case 3 => POST case 4 => PUT case 5 => CONNECT case 6 => OPTIONS
    case 7 => TRACE case 8 => COPY case 9 => LOCK case 10 => MKCOL case 11 => MOVE case 12 => PROPFIND
    case 13 => PROPPATCH case 14 => SEARCH case 15 => UNLOCK case 16 => BIND case 17 => REBIND case 18 => UNBIND
    case 19 => ACL case 20 => REPORT case 21 => MKACTIVITY case 22 => CHECKOUT case 23 => MERGE case 24 => MSEARCH
    case 25 => NOTIFY case 26 => SUBSCRIBE case 27 => UNSUBSCRIBE case 28 => PATCH case 29 => PURGE
    case 30 => MKCALENDAR case 31 => LINK case 32 => UNLINK case _ => SOURCE
  }

  function WordNumber(k: nat): Bytes
    requires k < 34
  {
    match k
    case 0 => "DELETE" case 1 => "GET" case 2 => "HEAD" case 3 => "POST" case 4 => "PUT" case 5 => "CONNECT"
    case 6 => "OPTIONS" case 7 => "TRACE" case 8 => "COPY" case 9 => "LOCK" case 10 => "MKCOL" case 11 => "MOVE"
    case 12 => "PROPFIND" case 13 => "PROPPATCH" case 14 => "SEARCH" case 15 => "UNLOCK" case 16 => "BIND"
    case 17 => "REBIND" case 18 => "UNBIND" case 19 => "ACL" case 20 => "REPORT" case 21 => "MKACTIVITY"
    case 22 => "CHECKOUT" case 23 => "MERGE" case 24 => "M-SEARCH" case 25 => "NOTIFY" case 26 => "SUBSCRIBE"
    case 27 => "UNSUBSCRIBE" case 28 => "PATCH" case 29 => "PURGE" case 30 => "MKCALENDAR" case 31 => "LINK"
    case 32 => "UNLINK" case _ => "SOURCE"
  }

  lemma WordsAre(k: nat)
    requires k < 34
    ensures MethodString(MethodNumber(k)) == WordNumber(k)
  {
  }

  function NumberOf(m: Method): nat {
    match m
    case DELETE => 0 case GET => 1 case HEAD => 2 case POST => 3 case PUT => 4 case CONNECT => 5 case OPTIONS => 6
    case TRACE => 7 case COPY => 8 case LOCK => 9 case MKCOL => 10 case MOVE => 11 case PROPFIND => 12
    case PROPPATCH => 13 case SEARCH => 14 case UNLOCK => 15 case BIND => 16 case REBIND => 17 case UNBIND => 18
    case ACL => 19 case REPORT => 20 case MKACTIVITY => 21 case CHECKOUT => 22 case MERGE => 23 case MSEARCH => 24
    case NOTIFY => 25 case SUBSCRIBE => 26 case UNSUBSCRIBE => 27 case PATCH => 28 case PURGE => 29
    case MKCALENDAR => 30 case LINK => 31 case UNLINK => 32 case SOURCE => 33
  }

  lemma EveryMethod(m: Method)
    ensures NumberOf(m) < 34 && MethodNumber(NumberOf(m)) == m
  {
  }

  /** The parser behind a method and a space. */
  function AfterMethod(s: Sim, m: Method, n: nat): Sim {
    Sim(Begun(s.parser, SpacesBeforeUrl, m, n), s.view.(log := s.view.log + [Note(MessageBegin)]), s.consumed + n,
        false)
  }

  /**
   * At the start of a request, a word and a space are accepted exactly when the word is one of the method strings, and
   * then that method is reported; any other word is an invalid method.
   */
  lemma MethodRecognised(s: Sim, word: Bytes)
    requires !Halted(s) && s.parser.state.StartReq? && s.parser.nread + |word| < MAX_HEADER_SIZE && IsWord(word)
    ensures var r := Run(s, word + [' ']);
            && (r.parser.errno == OK <==> exists m :: MethodString(m) == word)
            && (r.parser.errno == OK ==>
                  && r.parser.state.SpacesBeforeUrl? && (forall m :: MethodString(m) == word <==> r.parser.verb == m)
                  && (s.view.mark.NoMark? ==> r == AfterMethod(s, r.parser.verb, |word| + 1)))
            && (r.parser.errno != OK ==> r.parser.errno == InvalidMethod)
  {
    hide MethodString, Guess, StepByte, Retarget;
    var t := Run(s, word);
    WordRuns(s, word);
    assert (word + [' '])[..|word|] == word;
    SpaceAfterWord(t);
    if Guess(word).Some? {
      GuessSound(word);
      var w := MethodString(Guess(word).value);
      NoNulAt(Guess(word).value, |word|);
    }
    forall m | MethodString(m) == word ensures Guess(word) == Some(m) {
      GuessComplete(m);
    }
  }

  /** The 34 words of the methods, each with the method that it stands for. */
  lemma WordsRecognised(s: Sim, k: nat)
    requires !Halted(s) && s.parser.state.StartReq? && s.view.mark.NoMark? && k < 34
    requires s.parser.nread + |WordNumber(k)| < MAX_HEADER_SIZE
    ensures Run(s, WordNumber(k) + [' ']) == AfterMethod(s, MethodNumber(k), |WordNumber(k)| + 1)
  {
    hide Run, MethodString, WordNumber, MethodNumber;
    WordsAre(k);
    GuessComplete(MethodNumber(k));
    WordOfMethod(MethodNumber(k));
    MethodRecognised(s, WordNumber(k));
  }

  /** Any other word is an invalid method. */
  lemma OtherWordsRefused(s: Sim, word: Bytes)
    requires !Halted(s) && s.parser.state.StartReq? && s.parser.nread + |word| < MAX_HEADER_SIZE && IsWord(word)
    requires forall k: nat :: k < 34 ==> WordNumber(k) != word
    ensures Run(s, word + [' ']).parser.errno == InvalidMethod
  {
    hide Run, MethodString, WordNumber, MethodNumber, IsWord;
    MethodRecognised(s, word);
    forall m: Method ensures MethodString(m) != word {
      EveryMethod(m);
      WordsAre(NumberOf(m));
    }
  }

  lemma WordOfMethod(m: Method)
    ensures IsWord(MethodString(m))
  {
    GuessComplete(m);
    GuessSound(MethodString(m));
    FirstOfMethod(m);
    hide MethodString, Guess;
    forall i | 0 <= i < |MethodString(m)| ensures MethodString(m)[i] != ' ' {
      NoNul(m, i);
    }
  }

  lemma FirstOfMethod(m: Method)
    ensures MethodString(m) != [] && MethodString(m)[0] != CR && MethodString(m)[0] != LF
  {
  }

  lemma NoNulAt(m: Method, k: nat)
    ensures CharAt(MethodString(m), k) == NUL <==> k >= |MethodString(m)|
    ensures CharAt(MethodString(m), k) != ' '
  {
    hide MethodString;
    if k < |MethodString(m)| {
      NoNul(m, k);
    }
  }

  lemma SpaceAfterWord(t: Sim)
    requires t.parser.errno == OK && !t.stop ==> t.parser.state.ReqMethod? && t.parser.nread < MAX_HEADER_SIZE
    ensures Halted(t) ==> StepByte(t, ' ') == t
    ensures !Halted(t) ==>
              var r, want := StepByte(t, ' '), CharAt(MethodString(t.parser.verb), t.parser.index);
              && (r.parser.errno == OK <==> want == NUL)
              && (r.parser.errno == OK ==>
                    && r.parser == t.parser.(state := SpacesBeforeUrl, index := t.parser.index + 1,
                                             nread := t.parser.nread + 1)
                    && (t.view.mark.NoMark? ==> r == Sim(r.parser, t.view, t.consumed + 1, false)))
              && (r.parser.errno != OK ==> r.parser.errno == InvalidMethod)
  {
    hide MethodString;
    NoNulAt(t.parser.verb, t.parser.index);
  }
}
