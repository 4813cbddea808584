/**
 * Values that are lists: the options of Connection and the codings of Transfer-Encoding.  The parser does not split a
 * list at every comma: one that ends the beginning of a known word is taken for a letter of it.
 */
module HttpLists {
  import opened HttpTypes
  import opened HttpStep
  import opened HttpBulk
  import opened HttpNames

  // ---------- items ----------

  datatype ListKind = Options | Codings

  /** A byte that a header value may contain. */
  predicate TextByte(c: Byte) {
    c == '\t' || 32 <= c as int <= 126 || 128 <= c as int
  }

  predicate IsText(bytes: Bytes) {
    forall i :: 0 <= i < |bytes| ==> TextByte(bytes[i])
  }

  /** The text between the commas. */
  function Items(v: Bytes): (items: seq<Bytes>)
    ensures items != []
    decreases |v|
  {
    if v == [] then [[]]
    else
      var items, c := Items(v[..|v| - 1]), v[|v| - 1];
      var n := |items| - 1;
      if c == ',' then items + [[]] else items[..n] + [items[n] + [c]]
  }

  /** An item without the spaces before it. */
  function Stripped(t: Bytes): Bytes {
    if t == [] || t[0] != ' ' then t else Stripped(t[1..])
  }

  /** The known word that begins with a letter, if there is one. */
  function WordOf(k: ListKind, c: Byte): Bytes {
    var l := LowerByte(c);
    if k.Codings? then if l == 'c' then "chunked" else []
    else if l == 'k' then "keep-alive" else if l == 'c' then "close" else if l == 'u' then "upgrade" else []
  }

  /** An item that spells a word, in letters of any case and perhaps with spaces behind it. */
  predicate Spelled(t: Bytes, word: Bytes) {
    |word| <= |t| && LowerCase(t[..|word|]) == word && forall i :: |word| <= i < |t| ==> t[i] == ' '
  }

  /** An item that is only the beginning of a known word. */
  predicate Begun(k: ListKind, t: Bytes) {
    t != [] && LowerCase(t) <= WordOf(k, t[0]) && |t| < |WordOf(k, t[0])|
  }

  predicate StartsItem(c: Byte) {
    'a' <= c <= 'z' || 'A' <= c <= 'Z' || '0' <= c <= '9' || c == '!' || c == '#' || c == '$' || c == '%' || c == '&'
    || c == '\'' || c == '*' || c == '+' || c == '-' || c == '.' || c == '@' || c == '\\' || c == '^' || c == '`'
    || c == '|' || c == '~'
  }

  /** How an item is read: the first, a later one, as part of the one before it, or not at all. */
  datatype Reading = First | Later | Hidden | Skipped

  /** What the item contributes its text as. */
  function ItemText(r: Reading, item: Bytes): Bytes {
    if r.Later? then Stripped(item) else item
  }

  /** Does the comma behind the item end it, and how is the next one read? */
  function Next(k: ListKind, r: Reading, item: Bytes): Reading {
    var t := ItemText(r, item);
    if r.Hidden? then Later
    else if r.Skipped? then Skipped
    else if t == [] then if r.First? then Hidden else Skipped
    else if r.Later? && !StartsItem(t[0]) then Skipped
    else if Begun(k, t) || (k.Codings? && Spelled(t, "chunked")) then Hidden
    else Later
  }

  function ReadingOf(k: ListKind, items: seq<Bytes>, i: nat): Reading
    requires i < |items|
    decreases i
  {
    if i == 0 then First else Next(k, ReadingOf(k, items, i - 1), items[i - 1])
  }

  /** Item `i` is read as an item, and spells the word. */
  predicate ItemIs(k: ListKind, items: seq<Bytes>, i: nat, word: Bytes)
    requires i < |items|
  {
    var r := ReadingOf(k, items, i);
    (r.First? || r.Later?) && Spelled(ItemText(r, items[i]), word)
  }

  // ---------- the state of the parser in an item ----------

  function StartState(k: ListKind): HeaderState {
    if k.Codings? then TETokenStart else ConnTokenStart
  }

  function TokenState(k: ListKind): HeaderState {
    if k.Codings? then TEToken else ConnToken
  }

  function PartState(k: ListKind, c: Byte): HeaderState {
    if k.Codings? then TEMatchingChunked
    else if LowerByte(c) == 'k' then ConnMatchingKeepAlive
    else if LowerByte(c) == 'c' then ConnMatchingClose
    else ConnMatchingUpgrade
  }

  function WholeState(k: ListKind, c: Byte): HeaderState {
    if k.Codings? then TEChunked
    else if LowerByte(c) == 'k' then ConnKeepAlive
    else if LowerByte(c) == 'c' then ConnClose
    else ConnUpgrade
  }

  function TextState(k: ListKind, r: Reading, t: Bytes): HeaderState
    requires t != []
  {
    if r.Later? && !StartsItem(t[0]) then HGeneral
    else if WordOf(k, t[0]) == [] then TokenState(k)
    else if Begun(k, t) then PartState(k, t[0])
    else if Spelled(t, WordOf(k, t[0])) then WholeState(k, t[0])
    else TokenState(k)
  }

  function ItemState(k: ListKind, r: Reading, item: Bytes): HeaderState {
    var t := ItemText(r, item);
    if r.Hidden? then TokenState(k)
    else if r.Skipped? then HGeneral
    else if t == [] then StartState(k)
    else TextState(k, r, t)
  }

  function ListChar(k: ListKind, p: Parser, ch: Byte): Parser {
    if p.headerState.HGeneral? then p else if k.Codings? then CodingChar(p, ch) else ConnectionChar(p, ch)
  }

  // ---------- one byte ----------

  /** The bytes of the known words. */
  predicate IsWordByte(c: Byte) {
    'a' <= c <= 'z' || c == '-'
  }

  lemma LowerIs(c: Byte)
    requires TextByte(c)
    ensures LowerByte(c) != Lower(c) ==> !IsWordByte(LowerByte(c)) && !IsWordByte(Lower(c))
    ensures Lower(c) == ' ' <==> c == ' '
    ensures Lower(c) != TAB
    ensures Token(Lower(c)) != NUL <==> StartsItem(c)
  {
  }

  lemma {:induction false} StripMore(t: Bytes, c: Byte)
    ensures Stripped(t + [c]) == if Stripped(t) == [] && c == ' ' then [] else Stripped(t) + [c]
    decreases |t|
  {
    if t == [] {
      assert t + [c] == [c] && [c][1..] == [];
    } else {
      assert (t + [c])[1..] == t[1..] + [c];
      if t[0] == ' ' {
        StripMore(t[1..], c);
      }
    }
  }

  lemma LowerMore(t: Bytes, c: Byte)
    ensures LowerCase(t + [c]) == LowerCase(t) + [LowerByte(c)]
  {
    assert (t + [c])[..|t|] == t;
  }

  lemma ListWordsAre()
    ensures KEEP_ALIVE == "keep-alive" && CLOSE == "close" && UPGRADE == "upgrade" && CHUNKED == "chunked"
  {
  }

  lemma WordBytes(k: ListKind, c: Byte)
    ensures forall i :: 0 <= i < |WordOf(k, c)| ==> IsWordByte(WordOf(k, c)[i])
  {
  }

  lemma {:induction false} LowerPart(t: Bytes, n: nat)
    requires n <= |t|
    ensures LowerCase(t[..n]) == LowerCase(t)[..n]
    decreases |t|
  {
    if n == |t| {
      assert t[..n] == t;
    } else {
      LowerPart(t[..|t| - 1], n);
      assert t[..|t| - 1][..n] == t[..n];
    }
  }

  lemma SpelledMore(t: Bytes, c: Byte, word: Bytes)
    ensures Spelled(t + [c], word) <==>
            (|t| + 1 == |word| && LowerCase(t) + [LowerByte(c)] == word) || (Spelled(t, word) && c == ' ')
  {
    hide LowerCase;
    var u, n := t + [c], |word|;
    LowerMore(t, c);
    if n <= |t| {
      assert u[..n] == t[..n] && u[|t|] == c;
      assert forall i :: n <= i < |t| ==> u[i] == t[i];
    } else if n == |u| {
      assert u[..n] == u;
    }
  }

  lemma TextMore(k: ListKind, t: Bytes, c: Byte)
    requires t != [] && WordOf(k, t[0]) != []
    ensures var word := WordOf(k, t[0]);
            && (Begun(k, t + [c]) <==> Begun(k, t) && word[|t|] == LowerByte(c) && |t| + 1 < |word|)
            && (Spelled(t + [c], word) <==>
                (Begun(k, t) && word[|t|] == LowerByte(c) && |t| + 1 == |word|) || (Spelled(t, word) && c == ' '))
            && (Begun(k, t) ==> !Spelled(t, word))
  {
    var word := WordOf(k, t[0]);
    hide LowerCase, WordOf;
    LowerMore(t, c);
    Longer(LowerCase(t), LowerByte(c), word);
    SpelledMore(t, c, word);
    assert (t + [c])[0] == t[0];
  }

  /** Every known word begins with a letter. */
  lemma WordStarts(k: ListKind, c: Byte)
    ensures WordOf(k, c) != [] ==> StartsItem(c) && WordOf(k, c)[0] == LowerByte(c)
    ensures WordOf(k, c) == [] || |WordOf(k, c)| >= 5
  {
  }

  lemma PartMatches(p: Parser, word: Bytes, n: nat, c: Byte, whole: HeaderState, miss: HeaderState)
    requires 0 < n < |word| && p.index == n - 1
    ensures MatchWord(p, word, c, whole, miss) ==
            p.(index := n, headerState := if word[n] != c then miss else if n + 1 == |word| then whole
                                          else p.headerState)
  {
  }

  /** Within the beginning of a known word. */
  lemma PartStep(k: ListKind, p: Parser, t: Bytes, c: Byte)
    requires Begun(k, t) && p.headerState == PartState(k, t[0]) && p.index == |t| - 1 && TextByte(c)
    ensures var word := WordOf(k, t[0]);
            ListChar(k, p, c) ==
            p.(index := |t|, headerState := if word[|t|] != LowerByte(c) then TokenState(k)
                                            else if |t| + 1 == |word| then WholeState(k, t[0]) else p.headerState)
  {
    ListWordsAre();
    hide LowerCase, MatchWord, TextByte, IsWordByte, Lower, LowerByte;
    WordBytes(k, t[0]);
    LowerIs(c);
    PartMatches(p, WordOf(k, t[0]), |t|, Lower(c), WholeState(k, t[0]), TokenState(k));
  }

  /** A byte within the text of an item. */
  lemma TextStep(k: ListKind, r: Reading, p: Parser, t: Bytes, c: Byte)
    requires t != [] && TextByte(c) && c != ',' && (r.First? || r.Later?)
    requires p.headerState == TextState(k, r, t) && (Begun(k, t) ==> p.index == |t| - 1)
    ensures var q := ListChar(k, p, c);
            && q.headerState == TextState(k, r, t + [c]) && (Begun(k, t + [c]) ==> q.index == |t|)
            && q == p.(headerState := q.headerState, index := q.index)
  {
    hide LowerCase, LowerByte, TextByte, StartsItem, Spelled, MatchWord, Lower, Token, WordOf;
    assert (t + [c])[0] == t[0];
    WordStarts(k, t[0]);
    if WordOf(k, t[0]) == [] {
      assert !Begun(k, t) && !Begun(k, t + [c]);
    } else {
      TextMore(k, t, c);
      hide Begun;
      if Begun(k, t) {
        PartStep(k, p, t, c);
        hide ListChar;
      }
    }
  }

  lemma TextOne(k: ListKind, c: Byte)
    ensures Begun(k, [c]) <==> WordOf(k, c) != []
  {
    LowerMore([], c);
    assert [] + [c] == [c] && LowerCase([]) == [];
    hide LowerByte, LowerCase;
    WordStarts(k, c);
    assert WordOf(k, c) != [] ==> WordOf(k, c)[..1] == [LowerByte(c)];
  }

  /** The first byte of an item that is not the first: a space is passed over. */
  lemma TextStarts(k: ListKind, p: Parser, c: Byte)
    requires TextByte(c) && c != ',' && p.headerState == StartState(k) && p.index == 0
    ensures var q := ListChar(k, p, c);
            q == p.(headerState := if c == ' ' then StartState(k) else TextState(k, Later, [c]))
  {
    hide LowerCase, MatchWord, Lower, Token, Begun, Spelled, TextByte, LowerByte;
    LowerIs(c);
    WordBytes(k, c);
    WordStarts(k, c);
    TextOne(k, c);
  }

  // ---------- whole lists ----------

  /** The parser has read the item so far. */
  predicate InItem(k: ListKind, r: Reading, item: Bytes, p: Parser) {
    var t := ItemText(r, item);
    && p.headerState == ItemState(k, r, item)
    && (r.First? || r.Later? ==> if t == [] then p.index == 0 else Begun(k, t) ==> p.index == |t| - 1)
    && (r.First? ==> item != [])
  }

  /** The flags after an item whose end has been seen. */
  function Raised(k: ListKind, flags: Flags, r: Reading, item: Bytes): Flags {
    var t := ItemText(r, item);
    if r.Hidden? || r.Skipped? then flags else Flagged(k, flags, t)
  }

  lemma ItemByte(k: ListKind, r: Reading, p: Parser, item: Bytes, c: Byte)
    requires InItem(k, r, item, p) && TextByte(c) && c != ','
    ensures var q := ListChar(k, p, c);
            InItem(k, r, item + [c], q) && q == p.(headerState := q.headerState, index := q.index)
  {
    hide TextByte, TextState, Begun, CodingChar, ConnectionChar;
    if r.First? || r.Later? {
      hide ListChar, Stripped;
      var t := ItemText(r, item);
      StripMore(item, c);
      if t != [] {
        TextStep(k, r, p, t, c);
      } else {
        TextStarts(k, p, c);
        assert [] + [c] == [c];
      }
    } else {
      HiddenByte(k, p, c);
    }
  }

  lemma HiddenByte(k: ListKind, p: Parser, c: Byte)
    requires c != ',' && (p.headerState == TokenState(k) || p.headerState == HGeneral)
    ensures ListChar(k, p, c) == p
  {
    hide MatchWord, Token;
  }

  /** Only the word that begins with its first letter can be spelled. */
  lemma SpelledOnly(t: Bytes)
    requires t != []
    ensures Spelled(t, "keep-alive") <==> WordOf(Options, t[0]) == "keep-alive" && Spelled(t, WordOf(Options, t[0]))
    ensures Spelled(t, "close") <==> WordOf(Options, t[0]) == "close" && Spelled(t, WordOf(Options, t[0]))
    ensures Spelled(t, "upgrade") <==> WordOf(Options, t[0]) == "upgrade" && Spelled(t, WordOf(Options, t[0]))
    ensures Spelled(t, "chunked") <==> WordOf(Codings, t[0]) == "chunked" && Spelled(t, WordOf(Codings, t[0]))
  {
    FirstLower(t, "keep-alive");
    FirstLower(t, "close");
    FirstLower(t, "upgrade");
    FirstLower(t, "chunked");
    hide Spelled, LowerByte;
    assert "keep-alive"[0] == 'k' && "close"[0] == 'c' && "upgrade"[0] == 'u' && "chunked"[0] == 'c';
  }

  lemma FirstLower(t: Bytes, word: Bytes)
    requires t != [] && word != []
    ensures Spelled(t, word) ==> LowerByte(t[0]) == word[0]
  {
    if Spelled(t, word) {
      LowerAt(t[..|word|], 0);
    }
  }

  lemma {:induction false} LowerAt(t: Bytes, i: nat)
    requires i < |t|
    ensures LowerCase(t)[i] == LowerByte(t[i])
    decreases |t|
  {
    if i < |t| - 1 {
      LowerAt(t[..|t| - 1], i);
    }
  }

  /** The flags of the words that an item spells. */
  function Flagged(k: ListKind, flags: Flags, t: Bytes): Flags {
    if k.Codings? then flags
    else
      flags.(keepAlive := flags.keepAlive || Spelled(t, "keep-alive"), close := flags.close || Spelled(t, "close"),
             connUpgrade := flags.connUpgrade || Spelled(t, "upgrade"))
  }

  lemma PartComma(k: ListKind, p: Parser, t: Bytes)
    requires Begun(k, t) && p.headerState == PartState(k, t[0]) && p.index == |t| - 1
    ensures ListChar(k, p, ',') == p.(headerState := TokenState(k), index := |t|)
    ensures Flagged(k, p.flags, t) == p.flags && StartsItem(t[0])
  {
    var word := WordOf(k, t[0]);
    WordBytes(k, t[0]);
    PartStep(k, p, t, ',');
    hide LowerCase, Spelled, WordOf, LowerByte;
    SpelledOnly(t);
    BegunHasWord(k, t);
    WordStarts(k, t[0]);
    assert LowerByte(',') == ',' && IsWordByte(word[|t|]);
  }

  /** The comma behind the text of an item. */
  lemma TextComma(k: ListKind, r: Reading, p: Parser, t: Bytes)
    requires t != [] && (r.First? || r.Later?)
    requires p.headerState == TextState(k, r, t) && (Begun(k, t) ==> p.index == |t| - 1)
    ensures var q := ListChar(k, p, ',');
            && q.headerState == (if r.Later? && !StartsItem(t[0]) then HGeneral
                                 else if Begun(k, t) || (k.Codings? && Spelled(t, "chunked")) then TokenState(k)
                                 else StartState(k))
            && (q.headerState == StartState(k) ==> q.index == 0)
            && q == p.(headerState := q.headerState, index := q.index, flags := Flagged(k, p.flags, t))
  {
    hide LowerCase, TextByte, StartsItem, Spelled, MatchWord, Token, Begun, WordOf;
    WordStarts(k, t[0]);
    if Begun(k, t) {
      BegunHasWord(k, t);
      PartComma(k, p, t);
      hide ListChar, Flagged;
    } else {
      SpelledOnly(t);
      WordIs(k, t[0]);
      hide LowerByte;
    }
  }

  lemma BegunHasWord(k: ListKind, t: Bytes)
    requires Begun(k, t)
    ensures WordOf(k, t[0]) != [] && !Spelled(t, WordOf(k, t[0]))
  {
  }

  /** Which known word begins with a letter. */
  lemma WordIs(k: ListKind, c: Byte)
    ensures k.Codings? ==> WordOf(k, c) == [] || WordOf(k, c) == "chunked"
    ensures k.Options? ==>
              && (WordOf(k, c) == "keep-alive" <==> LowerByte(c) == 'k')
              && (WordOf(k, c) == "close" <==> LowerByte(c) == 'c')
              && (WordOf(k, c) == "upgrade" <==> LowerByte(c) == 'u')
              && (WordOf(k, c) == [] <==> LowerByte(c) != 'k' && LowerByte(c) != 'c' && LowerByte(c) != 'u')
  {
  }

  lemma ItemComma(k: ListKind, r: Reading, p: Parser, item: Bytes)
    requires InItem(k, r, item, p)
    ensures var q := ListChar(k, p, ',');
            && InItem(k, Next(k, r, item), [], q)
            && q == p.(headerState := q.headerState, index := q.index, flags := Raised(k, p.flags, r, item))
  {
    hide Stripped, TextState, Begun, Spelled, ListChar, StartsItem, Flagged, TextByte;
    var t := ItemText(r, item);
    assert Stripped([]) == [] by {
      NothingStripped();
    }
    if r.Hidden? || r.Skipped? {
      OuterComma(k, p);
    } else if t == [] {
      EmptyComma(k, p);
      NothingSpelled(k, p.flags);
    } else {
      TextComma(k, r, p, t);
    }
  }

  lemma NothingStripped()
    ensures Stripped([]) == []
  {
  }

  lemma OuterComma(k: ListKind, p: Parser)
    ensures p.headerState == TokenState(k) ==> ListChar(k, p, ',') == p.(headerState := StartState(k), index := 0)
    ensures p.headerState == HGeneral ==> ListChar(k, p, ',') == p
  {
    hide MatchWord, Token;
  }

  lemma EmptyComma(k: ListKind, p: Parser)
    requires p.headerState == StartState(k)
    ensures ListChar(k, p, ',') == p.(headerState := HGeneral)
  {
    LowerIs(',');
    assert Lower(',') == ',';
    hide MatchWord, Token, Lower;
  }

  lemma NothingSpelled(k: ListKind, flags: Flags)
    ensures Flagged(k, flags, []) == flags
  {
  }

  /** In a list a byte of the value is a byte of the list. */
  lemma ListIsValue(k: ListKind, r: Reading, item: Bytes, p: Parser, c: Byte)
    requires InItem(k, r, item, p) && TextByte(c)
    ensures ValueChar(p, c) == ListChar(k, p, c)
  {
    hide CodingChar, ConnectionChar, LengthChar, Stripped, Begun, Spelled, WordOf;
  }

  lemma {:induction false} ReadingPrefix(k: ListKind, a: seq<Bytes>, b: seq<Bytes>, i: nat)
    requires i < |a| && i < |b| && a[..i] == b[..i]
    ensures ReadingOf(k, a, i) == ReadingOf(k, b, i)
    decreases i
  {
    hide Next;
    if i > 0 {
      assert a[..i][..i - 1] == a[..i - 1] && b[..i][..i - 1] == b[..i - 1];
      ReadingPrefix(k, a, b, i - 1);
      assert a[i - 1] == a[..i][i - 1] == b[..i][i - 1] == b[i - 1];
    }
  }

  /** The flags after the first `m` items, each of them followed by a comma. */
  function Gathered(k: ListKind, flags: Flags, items: seq<Bytes>, m: nat): Flags
    requires m <= |items|
    decreases m
  {
    if m == 0 then flags
    else Raised(k, Gathered(k, flags, items, m - 1), ReadingOf(k, items, m - 1), items[m - 1])
  }

  lemma {:induction false} GatheredPrefix(k: ListKind, flags: Flags, a: seq<Bytes>, b: seq<Bytes>, m: nat)
    requires m <= |a| && m <= |b| && a[..m] == b[..m]
    ensures Gathered(k, flags, a, m) == Gathered(k, flags, b, m)
    decreases m
  {
    hide Raised, ReadingOf;
    if m > 0 {
      assert a[..m][..m - 1] == a[..m - 1] && b[..m][..m - 1] == b[..m - 1];
      assert a[m - 1] == a[..m][m - 1] == b[..m][m - 1] == b[m - 1];
      GatheredPrefix(k, flags, a, b, m - 1);
      ReadingPrefix(k, a, b, m - 1);
    }
  }

  /** The parser has read a list so far: where it stands, and the flags of the items that have ended. */
  ghost predicate InList(k: ListKind, flags: Flags, v: Bytes, p: Parser, q: Parser) {
    var items := Items(v);
    var last := |items| - 1;
    && InItem(k, ReadingOf(k, items, last), items[last], q)
    && q == p.(headerState := q.headerState, index := q.index, flags := Gathered(k, flags, items, last))
  }

  lemma ListByte(k: ListKind, flags: Flags, v: Bytes, p: Parser, q: Parser, c: Byte)
    requires InList(k, flags, v, p, q) && TextByte(c)
    ensures InList(k, flags, v + [c], p, ValueChar(q, c))
  {
    hide InItem, Next, ListChar, Raised, ReadingOf, Gathered, ValueChar, TextByte;
    var items, next := Items(v), Items(v + [c]);
    var last := |items| - 1;
    assert (v + [c])[..|v|] == v;
    ListIsValue(k, ReadingOf(k, items, last), items[last], q, c);
    assert next[..last] == items[..last];
    ReadingPrefix(k, items, next, last);
    GatheredPrefix(k, flags, items, next, last);
    if c == ',' {
      ItemComma(k, ReadingOf(k, items, last), q, items[last]);
      CommaNext(k, flags, next, last);
    } else {
      ItemByte(k, ReadingOf(k, items, last), q, items[last], c);
    }
  }

  lemma CommaNext(k: ListKind, flags: Flags, items: seq<Bytes>, i: nat)
    requires i + 1 < |items|
    ensures ReadingOf(k, items, i + 1) == Next(k, ReadingOf(k, items, i), items[i])
    ensures Gathered(k, flags, items, i + 1)
        == Raised(k, Gathered(k, flags, items, i), ReadingOf(k, items, i), items[i])
  {
  }

  // ---------- what a list says ----------

  /** One of the first `m` options is the word. */
  ghost predicate OptionAmong(items: seq<Bytes>, m: nat, word: Bytes)
    requires m <= |items|
  {
    exists i :: 0 <= i < m && ItemIs(Options, items, i, word)
  }

  /** The option is one of a Connection value. */
  ghost predicate HasOption(v: Bytes, word: Bytes) {
    OptionAmong(Items(v), |Items(v)|, word)
  }

  /** The last coding of a Transfer-Encoding value is `chunked`. */
  predicate EndsChunked(v: Bytes) {
    ItemIs(Codings, Items(v), |Items(v)| - 1, "chunked")
  }

  /** The flags that a list raises. */
  ghost function ListFlags(k: ListKind, flags: Flags, v: Bytes): Flags {
    match k
    case Options =>
      flags.(keepAlive := flags.keepAlive || HasOption(v, "keep-alive"), close := flags.close || HasOption(v, "close"),
             connUpgrade := flags.connUpgrade || HasOption(v, "upgrade"))
    case Codings => flags.(chunked := flags.chunked || EndsChunked(v))
  }

  lemma {:induction false} GatheredIs(flags: Flags, items: seq<Bytes>, m: nat)
    requires m <= |items|
    ensures Gathered(Options, flags, items, m) ==
            flags.(keepAlive := flags.keepAlive || OptionAmong(items, m, "keep-alive"),
                   close := flags.close || OptionAmong(items, m, "close"),
                   connUpgrade := flags.connUpgrade || OptionAmong(items, m, "upgrade"))
    decreases m
  {
    hide ReadingOf, Spelled, ItemText, ItemIs;
    if m > 0 {
      GatheredIs(flags, items, m - 1);
      AmongNext(items, m - 1, "keep-alive");
      AmongNext(items, m - 1, "close");
      AmongNext(items, m - 1, "upgrade");
      OneItem(items, m - 1);
      hide OptionAmong;
    }
  }

  lemma AmongNext(items: seq<Bytes>, m: nat, word: Bytes)
    requires m < |items|
    ensures OptionAmong(items, m + 1, word) <==> OptionAmong(items, m, word) || ItemIs(Options, items, m, word)
  {
    hide ItemIs;
    if OptionAmong(items, m, word) {
      var i :| 0 <= i < m && ItemIs(Options, items, i, word);
    }
  }

  lemma OneItem(items: seq<Bytes>, i: nat)
    requires i < |items|
    ensures forall flags {:trigger Raised(Options, flags, ReadingOf(Options, items, i), items[i])} ::
              Raised(Options, flags, ReadingOf(Options, items, i), items[i]) ==
              flags.(keepAlive := flags.keepAlive || ItemIs(Options, items, i, "keep-alive"),
                     close := flags.close || ItemIs(Options, items, i, "close"),
                     connUpgrade := flags.connUpgrade || ItemIs(Options, items, i, "upgrade"))
  {
    hide ReadingOf, Spelled, ItemText;
  }

  lemma {:induction false} CodingsGather(flags: Flags, items: seq<Bytes>, m: nat)
    requires m <= |items|
    ensures Gathered(Codings, flags, items, m) == flags
    decreases m
  {
    hide ReadingOf;
    if m > 0 {
      CodingsGather(flags, items, m - 1);
    }
  }

  lemma TextEnds(k: ListKind, r: Reading, t: Bytes, p: Parser)
    requires t != [] && (r.First? || r.Later?) && p.headerState == TextState(k, r, t)
    ensures FinishHeader(p) ==
            p.(flags := if k.Codings? then p.flags.(chunked := p.flags.chunked || Spelled(t, "chunked"))
                        else Flagged(k, p.flags, t))
  {
    hide Begun, Spelled, StartsItem, WordOf, LowerByte;
    SpelledOnly(t);
    WordIs(k, t[0]);
    WordStarts(k, t[0]);
    if Begun(k, t) {
      BegunHasWord(k, t);
    }
  }

  /** The end of the value: the last item counts if it is complete. */
  lemma LastItem(k: ListKind, r: Reading, item: Bytes, p: Parser)
    requires InItem(k, r, item, p)
    ensures k.Options? ==> FinishHeader(p) == p.(flags := Raised(k, p.flags, r, item))
    ensures k.Codings? ==>
              FinishHeader(p) == p.(flags := p.flags.(chunked := p.flags.chunked
                  || ((r.First? || r.Later?) && Spelled(ItemText(r, item), "chunked"))))
  {
    hide Begun, Spelled, Stripped, Flagged, TextState;
    var t := ItemText(r, item);
    if t != [] && (r.First? || r.Later?) {
      TextEnds(k, r, t, p);
      hide FinishHeader;
    } else {
      NothingSpelled(k, p.flags);
      NotChunked();
    }
  }

  lemma NotChunked()
    ensures !Spelled([], "chunked")
  {
  }

  lemma ListEnds(k: ListKind, v: Bytes, p: Parser, q: Parser)
    requires InList(k, p.flags, v, p, q)
    ensures FinishHeader(q) == p.(headerState := q.headerState, index := q.index, flags := ListFlags(k, p.flags, v))
  {
    var items := Items(v);
    var last := |items| - 1;
    hide FinishHeader, ReadingOf, Items, InItem, ItemText, Spelled, Gathered, OptionAmong, Raised, ItemIs;
    LastItem(k, ReadingOf(k, items, last), items[last], q);
    match k
    case Options =>
      GatheredIs(p.flags, items, last);
      OneItem(items, last);
      AmongNext(items, last, "keep-alive");
      AmongNext(items, last, "close");
      AmongNext(items, last, "upgrade");
    case Codings =>
      CodingsGather(p.flags, items, last);
      LastIs(items);
  }

  lemma LastIs(items: seq<Bytes>)
    requires items != []
    ensures var r, t := ReadingOf(Codings, items, |items| - 1), items[|items| - 1];
            ItemIs(Codings, items, |items| - 1, "chunked") <==>
            (r.First? || r.Later?) && Spelled(ItemText(r, t), "chunked")
  {
  }

  function HeadState(k: ListKind): HeaderState {
    if k.Codings? then HTransferEncoding else HConnection
  }

  lemma FirstState(k: ListKind, p: Parser, c: Byte)
    requires p.headerState == HeadState(k) && TextByte(c)
    ensures OnValueStart(p, c).parser ==
            p.(state := HeaderValue, index := 0,
               headerState := if c == ',' then TokenState(k) else TextState(k, First, [c]))
  {
    hide TextByte, Spelled, Begun, Lower, Token, StartsItem;
    LowerIs(c);
    TextOne(k, c);
    WordIs(k, c);
  }

  lemma FirstItems(k: ListKind, c: Byte)
    ensures Items([c]) == if c == ',' then [[], []] else [[c]]
    ensures c == ',' ==> ReadingOf(k, Items([c]), 1) == Hidden
  {
    hide Spelled, Begun;
    var none: seq<Bytes> := [[]];
    assert [c][..0] == [] && Items([]) == none && none[..0] == [];
    assert [] + [c] == [c] && none + [[]] == [[], []];
  }

  lemma ListBegins(k: ListKind, p: Parser, c: Byte)
    requires p.headerState == HeadState(k) && TextByte(c)
    ensures var q := OnValueStart(p, c).parser;
            && InList(k, p.flags, [c], q, q) && q == p.(state := HeaderValue, headerState := q.headerState, index := 0)
  {
    hide TextByte, OnValueStart, TextState, Items, Next, Begun, Stripped, Flagged;
    FirstState(k, p, c);
    FirstItems(k, c);
    NothingSpelled(k, p.flags);
  }

  lemma {:induction false} ListRun(k: ListKind, p: Parser, v: Bytes, n: nat)
    requires p.headerState == HeadState(k) && IsText(v) && 0 < n <= |v| && p.errno == OK
    ensures var q0 := OnValueStart(p, v[0]).parser;
            InList(k, p.flags, v[..n], q0, ValueChars(q0, v[1..n])) && q0.errno == OK && q0.flags == p.flags
    decreases n
  {
    hide TextByte, OnValueStart, ValueChar, InList;
    var q0 := OnValueStart(p, v[0]).parser;
    ListBegins(k, p, v[0]);
    if n == 1 {
      assert v[..1] == [v[0]] && v[1..1] == [];
    } else {
      var m := n - 1;
      ListRun(k, p, v, m);
      assert v[1..n][..m - 1] == v[1..m] && v[1..n][m - 1] == v[m] && v[..n] == v[..m] + [v[m]];
      InListKeeps(k, p.flags, v[..m], q0, ValueChars(q0, v[1..m]));
      ListByte(k, p.flags, v[..m], q0, ValueChars(q0, v[1..m]), v[m]);
    }
  }

  lemma InListKeeps(k: ListKind, flags: Flags, v: Bytes, p: Parser, q: Parser)
    requires InList(k, flags, v, p, q)
    ensures q.errno == p.errno
  {
  }

  /** A list is read as its items say, and no byte of it is refused. */
  lemma ListRead(k: ListKind, p: Parser, v: Bytes)
    requires p.headerState == HeadState(k) && IsText(v) && v != [] && p.errno == OK
    ensures var q0 := OnValueStart(p, v[0]).parser;
            var q := ValueChars(q0, v[1..]);
            && q0.errno == OK && q.errno == OK
            && FinishHeader(q) == p.(state := HeaderValue, headerState := q.headerState, index := q.index,
                                     flags := ListFlags(k, p.flags, v))
  {
    hide TextByte, OnValueStart, ValueChars, InList, FinishHeader, ListFlags, IsText;
    var q0 := OnValueStart(p, v[0]).parser;
    FirstByte(v);
    ListBegins(k, p, v[0]);
    ListRun(k, p, v, |v|);
    assert v[..|v|] == v && v[1..|v|] == v[1..];
    InListKeeps(k, p.flags, v, q0, ValueChars(q0, v[1..]));
    ListEnds(k, v, q0, ValueChars(q0, v[1..]));
  }

  lemma FirstByte(v: Bytes)
    requires IsText(v) && v != []
    ensures TextByte(v[0])
  {
  }

  // ---------- plain lists ----------

  /** An item that a comma ends: it is not empty, and not only the beginning of a known word. */
  predicate IsPlain(k: ListKind, item: Bytes) {
    var t := Stripped(item);
    t != [] && StartsItem(t[0]) && !Begun(k, t) && (k.Codings? ==> !Spelled(t, "chunked"))
  }

  lemma {:induction false} PlainReading(k: ListKind, items: seq<Bytes>, i: nat)
    requires i < |items| && forall j :: 0 <= j < i ==> IsPlain(k, items[j])
    requires items[0] == Stripped(items[0])
    ensures ReadingOf(k, items, i) == if i == 0 then First else Later
    ensures ItemText(ReadingOf(k, items, i), items[i]) == Stripped(items[i])
    decreases i
  {
    hide Stripped, Spelled, Begun, StartsItem;
    if i > 0 {
      PlainReading(k, items, i - 1);
      assert IsPlain(k, items[i - 1]);
    }
  }

  /** In a list of plain items an option counts exactly if one of the items spells it. */
  lemma PlainOptions(v: Bytes, option: Bytes)
    requires v != [] && v[0] != ' '
    requires forall i :: 0 <= i < |Items(v)| ==> IsPlain(Options, Items(v)[i])
    ensures HasOption(v, option) <==> exists i :: 0 <= i < |Items(v)| && Spelled(Stripped(Items(v)[i]), option)
  {
    hide Stripped, Spelled, IsPlain, ReadingOf;
    var items := Items(v);
    FirstStripped(v);
    forall i | 0 <= i < |items| ensures ItemIs(Options, items, i, option) <==> Spelled(Stripped(items[i]), option) {
      PlainReading(Options, items, i);
    }
    hide ItemIs, Items;
  }

  /** In a list of plain codings `chunked` counts exactly if the last item spells it. */
  lemma PlainCodings(v: Bytes)
    requires v != [] && v[0] != ' '
    requires forall i :: 0 <= i < |Items(v)| - 1 ==> IsPlain(Codings, Items(v)[i])
    ensures EndsChunked(v) <==> Spelled(Stripped(Items(v)[|Items(v)| - 1]), "chunked")
  {
    hide Stripped, Spelled, IsPlain, ReadingOf;
    FirstStripped(v);
    PlainReading(Codings, Items(v), |Items(v)| - 1);
  }

  lemma {:induction false} FirstStripped(v: Bytes)
    requires v == [] || v[0] != ' '
    ensures var t := Items(v)[0]; Stripped(t) == t && (t != [] ==> v != [] && t[0] == v[0])
    decreases |v|
  {
    if v != [] {
      FirstStripped(v[..|v| - 1]);
    }
  }
}
