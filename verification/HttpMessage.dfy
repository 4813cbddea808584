/** Lengths and bodies: digits are read exactly, chunked bodies are decoded, and a finished parser owes no message. */
module HttpMessage {
  import opened HttpTypes
  import opened HttpStep
  import opened HttpRun

  // ---------- digits ----------

  const HEX_LOWER: Bytes := "0123456789abcdef"
  const HEX_UPPER: Bytes := "0123456789ABCDEF"

  predicate Spells(d: int, c: Byte) {
    0 <= d < 16 && (HEX_LOWER[d] == c || HEX_UPPER[d] == c)
  }

  /** The value of a hexadecimal digit, every byte from 0x80 on counting as zero; -1 for what is no digit. */
  ghost function HexValue(c: Byte): int {
    if c as int >= 128 then 0
    else if exists d :: Spells(d, c) then var d :| Spells(d, c); d
    else -1
  }

  /** The table of the parser gives these values. */
  lemma UnhexIs(c: Byte)
    ensures Unhex(c) == HexValue(c)
    ensures forall d :: 0 <= d < 16 ==> Unhex(HEX_LOWER[d]) == d && Unhex(HEX_UPPER[d]) == d
  {
    SpellsOne(c);
    if c as int < 128 && Unhex(c) != -1 {
      assert Spells(Unhex(c), c);
    }
  }

  /** A byte spells one digit at most. */
  lemma SpellsOne(c: Byte)
    ensures forall d :: Spells(d, c) ==> d == Unhex(c)
  {
  }

  ghost predicate AllHex(digits: Bytes) {
    forall i :: 0 <= i < |digits| ==> HexValue(digits[i]) != -1
  }

  ghost function Hexadecimal(digits: Bytes): nat
    requires AllHex(digits)
    decreases |digits|
  {
    if digits == [] then 0
    else
      UnhexIs(digits[|digits| - 1]);
      Hexadecimal(digits[..|digits| - 1]) * 16 + HexValue(digits[|digits| - 1])
  }

  /** A parser that has read a Content-Length number so far. */
  predicate ReadsLength(s: Sim, n: nat, nread: nat) {
    && !Halted(s) && s.parser.state.HeaderValue? && s.parser.headerState.HContentLengthNum?
    && s.parser.contentLength == n && s.parser.flags.contentLength && s.parser.nread == nread
  }

  lemma LengthStart(s: Sim, ch: Byte)
    requires !Halted(s) && s.parser.state.ValueDiscardWs? && s.parser.headerState.HContentLength?
    requires !s.parser.flags.contentLength && s.parser.nread < MAX_HEADER_SIZE && IsNum(ch)
    ensures ReadsLength(StepByte(s, ch), Digit(ch), s.parser.nread + 1)
  {
    hide PerformAll, Lower;
  }

  lemma LengthStep(s: Sim, ch: Byte, n: nat, nread: nat)
    requires ReadsLength(s, n, nread) && nread < MAX_HEADER_SIZE && IsNum(ch)
    ensures n <= (ULLONG_MAX - 10) / 10 ==>
              ReadsLength(StepByte(s, ch), n * 10 + Digit(ch), nread + 1) && n * 10 + Digit(ch) < ULLONG_MAX
    ensures n > (ULLONG_MAX - 10) / 10 ==> StepByte(s, ch).parser.errno == InvalidContentLength
  {
    hide PerformAll, CodingChar, ConnectionChar;
  }

  lemma DecimalGrows(digits: Bytes)
    requires AllNum(digits) && digits != []
    ensures Decimal(digits[..|digits| - 1]) <= Decimal(digits)
  {
  }

  /**
   * The digits of a Content-Length are accepted exactly when the number without its last digit is within the
   * conservative limit; then the length is the number they spell, and it is never the marker of an absent length.
   */
  lemma {:induction false} ContentLengthExact(s: Sim, digits: Bytes)
    requires !Halted(s) && s.parser.state.ValueDiscardWs? && s.parser.headerState.HContentLength?
    requires !s.parser.flags.contentLength && s.parser.nread + |digits| <= MAX_HEADER_SIZE
    requires digits != [] && AllNum(digits)
    ensures var r := Run(s, digits);
            && (r.parser.errno == OK <==> Decimal(digits[..|digits| - 1]) <= (ULLONG_MAX - 10) / 10)
            && (r.parser.errno == OK ==>
                  ReadsLength(r, Decimal(digits), s.parser.nread + |digits|) && Decimal(digits) < ULLONG_MAX)
            && (r.parser.errno != OK ==> r.parser.errno == InvalidContentLength)
    decreases |digits|
  {
    hide StepByte;
    var n := |digits| - 1;
    if n == 0 {
      assert digits[..0] == [] && Run(s, []) == s;
      LengthStart(s, digits[0]);
    } else {
      var b := digits[..n];
      ContentLengthExact(s, b);
      DecimalGrows(b);
      var t := Run(s, b);
      if t.parser.errno == OK {
        LengthStep(t, digits[n], Decimal(b), s.parser.nread + n);
      } else {
        HaltedByte(t, digits[n]);
      }
    }
  }

  /** A parser that has read the size of a chunk so far. */
  function SizeRead(s: Sim, size: u64, more: nat): Sim {
    s.(parser := s.parser.(state := ChunkSize, contentLength := size, nread := s.parser.nread + more),
          consumed := s.consumed + more)
  }

  lemma SizeStart(s: Sim, ch: Byte)
    requires !Halted(s) && s.parser.state.ChunkSizeStart? && s.parser.nread < MAX_HEADER_SIZE && Unhex(ch) != -1
        && s.view.mark.NoMark?
    ensures StepByte(s, ch) == SizeRead(s, Unhex(ch), 1)
  {
    hide Unhex;
  }

  lemma CRNoDigit(ch: Byte)
    requires Unhex(ch) != -1
    ensures ch != CR
  {
  }

  lemma SizeStep(s: Sim, ch: Byte)
    requires !Halted(s) && s.parser.state.ChunkSize? && s.parser.nread < MAX_HEADER_SIZE && Unhex(ch) != -1
        && s.view.mark.NoMark?
    ensures s.parser.contentLength <= (ULLONG_MAX - 16) / 16 ==>
              s.parser.contentLength * 16 + Unhex(ch) < ULLONG_MAX
              && StepByte(s, ch) == SizeRead(s, s.parser.contentLength * 16 + Unhex(ch), 1)
    ensures s.parser.contentLength > (ULLONG_MAX - 16) / 16 ==> StepByte(s, ch).parser.errno == InvalidContentLength
  {
    CRNoDigit(ch);
    hide Unhex;
  }

  lemma HexGrows(digits: Bytes)
    requires AllHex(digits) && digits != []
    ensures Hexadecimal(digits[..|digits| - 1]) * 16 <= Hexadecimal(digits)
    ensures Hexadecimal(digits[..|digits| - 1]) <= Hexadecimal(digits)
  {
    hide HexValue, Unhex;
    UnhexIs(digits[|digits| - 1]);
  }

  /**
   * The digits of a chunk size are accepted exactly when the number without its last digit is within the conservative
   * limit; then the size is the number they spell, every byte from 0x80 on counting as the digit zero.
   */
  lemma {:induction false} ChunkSizeExact(s: Sim, digits: Bytes)
    requires !Halted(s) && s.parser.state.ChunkSizeStart? && s.view.mark.NoMark?
    requires s.parser.nread + |digits| <= MAX_HEADER_SIZE && digits != [] && AllHex(digits)
    ensures var r := Run(s, digits);
            && (r.parser.errno == OK <==> Hexadecimal(digits[..|digits| - 1]) <= (ULLONG_MAX - 16) / 16)
            && (r.parser.errno == OK ==>
                  Hexadecimal(digits) < ULLONG_MAX && r == SizeRead(s, Hexadecimal(digits), |digits|))
            && (r.parser.errno != OK ==> r.parser.errno == InvalidContentLength)
    decreases |digits|
  {
    hide StepByte, Unhex, HexValue;
    var n := |digits| - 1;
    UnhexIs(digits[n]);
    if n == 0 {
      assert digits[..0] == [] && Run(s, []) == s;
      SizeStart(s, digits[0]);
    } else {
      var b := digits[..n];
      ChunkSizeExact(s, b);
      HexGrows(b);
      var t := Run(s, b);
      if t.parser.errno == OK {
        SizeStep(t, digits[n]);
      } else {
        HaltedByte(t, digits[n]);
      }
    }
  }
}
