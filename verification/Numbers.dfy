/** Printing and scanning of 32-bit numbers. */
module Numbers {

  const U32_LIMIT: nat := 0x1_0000_0000
  const SIGN_LIMIT: nat := 0x8000_0000
  type Word = w: int | 0 <= w < U32_LIMIT

  /** The C conversion from uint32_t to int. */
  function Signed(w: Word): int {
    if w < SIGN_LIMIT then w else w - U32_LIMIT
  }

  /** Truncation to uint32_t. */
  function Wrap(n: nat): Word {
    n % U32_LIMIT
  }

  // ---------------------------------------------------------------- numerals

  /** Value of a digit character in a base up to 16, as the scanners take it. */
  function Digit(ch: char): int {
    if '0' <= ch <= '9' then ch as int - '0' as int
    else if 'a' <= ch <= 'f' then ch as int - 'a' as int + 10
    else -1
  }

  /** The two bases printed and scanned. */
  predicate IsBase(base: nat) {
    base == 10 || base == 16
  }

  predicate IsDigit(ch: char, base: nat) {
    0 <= Digit(ch) < base
  }

  predicate AllDigits(s: string, base: nat) {
    forall i :: 0 <= i < |s| ==> IsDigit(s[i], base)
  }

  function Value(s: string, base: nat): nat
    requires AllDigits(s, base)
  {
    if s == [] then 0 else base * Value(s[..|s| - 1], base) + Digit(s[|s| - 1])
  }

  /** At least one digit, and no leading zero unless it is the only digit. */
  predicate Canonical(s: string, base: nat) {
    AllDigits(s, base) && |s| > 0 && (|s| > 1 ==> s[0] != '0')
  }

  function DigitChar(d: nat): (ch: char)
    requires d < 16
    ensures Digit(ch) == d && (d > 0 ==> ch != '0')
  {
    if d < 10 then '0' + d as char else 'a' + (d - 10) as char
  }

  function Numeral(n: nat, base: nat): (s: string)
    requires IsBase(base)
    ensures Canonical(s, base) && Value(s, base) == n && (n > 0 ==> s[0] != '0')
  {
    if n < base then
      ValueSnoc([], n, base);
      [DigitChar(n)]
    else
      Quotient(n, base);
      var front := Numeral(n / base, base);
      ValueSnoc(front, n % base, base);
      front + [DigitChar(n % base)]
  }

  lemma Quotient(n: nat, base: nat)
    requires IsBase(base) && base <= n
    ensures 0 < n / base < n && 0 <= n % base < base && n == base * (n / base) + n % base
  {
    if base == 10 {
      assert 0 < n / 10 < n && n == 10 * (n / 10) + n % 10;
    } else {
      assert 0 < n / 16 < n && n == 16 * (n / 16) + n % 16;
    }
  }

  lemma ValueSnoc(front: string, d: nat, base: nat)
    requires IsBase(base) && AllDigits(front, base) && d < base
    ensures AllDigits(front + [DigitChar(d)], base) && Value(front + [DigitChar(d)], base) == base * Value(front, base) + d
  {
    assert (front + [DigitChar(d)])[..|front|] == front;
  }

  lemma {:induction false} ZeroOnly(s: string, base: nat)
    requires IsBase(base) && AllDigits(s, base) && Value(s, base) == 0
    ensures forall i :: 0 <= i < |s| ==> s[i] == '0'
  {
    if s != [] {
      ZeroOnly(s[..|s| - 1], base);
      assert Digit(s[|s| - 1]) == 0;
    }
  }

  /** A value has one canonical numeral: what is printed is the numeral. */
  lemma {:induction false} NumeralUnique(s: string, base: nat)
    requires IsBase(base) && Canonical(s, base)
    ensures s == Numeral(Value(s, base), base)
    decreases |s|
  {
    var front, d := s[..|s| - 1], Digit(s[|s| - 1]);
    DigitCharOf(s[|s| - 1]);
    assert s == front + [s[|s| - 1]];
    if front == [] {
      assert Value(front, base) == 0;
    } else {
      if Value(front, base) == 0 {
        ZeroOnly(front, base);
      }
      assert Value(front, base) > 0;
      NumeralUnique(front, base);
      DivMod(Value(front, base), d, base);
    }
  }

  lemma DigitCharOf(ch: char)
    requires IsDigit(ch, 16)
    ensures DigitChar(Digit(ch)) == ch
  {
  }

  lemma DivMod(q: nat, r: nat, base: nat)
    requires IsBase(base) && r < base && q > 0
    ensures (base * q + r) / base == q && (base * q + r) % base == r && base * q + r >= base
  {
    if base == 10 {
      assert (10 * q + r) / 10 == q && (10 * q + r) % 10 == r;
    } else {
      assert (16 * q + r) / 16 == q && (16 * q + r) % 16 == r;
    }
  }

  const DIGITS: string := "0123456789abcdef"

  /** n with its last k digits cut off. */
  function Cut(n: nat, base: nat, k: nat): nat
    requires base > 0
  {
    if k == 0 then n else Cut(n, base, k - 1) / base
  }

  /** The characters that stand for digits are these sixteen. */
  lemma DigitTable(ch: char, d: nat)
    requires d < 16
    ensures DigitChar(d) == DIGITS[d] && Digit(DIGITS[d]) == d
    ensures 0 <= Digit(ch) <==> ch in DIGITS
  {
    assert ch in DIGITS <==> exists k :: 0 <= k < 16 && DIGITS[k] == ch;
    if 0 <= Digit(ch) {
      assert DIGITS[Digit(ch)] == ch;
    }
  }

  lemma CutFront(n: nat, base: nat, k: nat)
    requires IsBase(base)
    ensures Cut(n, base, k + 1) == Cut(n / base, base, k)
  {
    if k > 0 {
      CutFront(n, base, k - 1);
    }
  }

  /** Digit by digit: counted from the right, place k of a numeral shows that digit of the number, and nothing is cut off in front. */
  lemma {:induction false} NumeralPlaces(n: nat, base: nat, k: nat)
    requires IsBase(base) && k < |Numeral(n, base)|
    ensures var s := Numeral(n, base);
      s[|s| - 1 - k] == DIGITS[Cut(n, base, k) % base] && Cut(n, base, |s|) == 0
  {
    hide Numeral, Canonical, Value, AllDigits, DigitChar, Digit;
    NumeralTurn(n, base);
    LastDigit(n, base);
    if n >= base {
      Quotient(n, base);
      var front := Numeral(n / base, base);
      NumeralNotEmpty(n / base, base);
      CutFront(n, base, |front|);
      NumeralPlaces(n / base, base, if k > 0 then k - 1 else 0);
      if k > 0 {
        CutFront(n, base, k - 1);
      }
    } else {
      SmallQuotient(n, base);
    }
  }

  lemma NumeralNotEmpty(n: nat, base: nat)
    requires IsBase(base)
    ensures |Numeral(n, base)| > 0
  {
  }

  lemma LastDigit(n: nat, base: nat)
    requires IsBase(base)
    ensures n % base < 16 && DigitChar(n % base) == DIGITS[n % base] && |DIGITS| == 16
  {
    if base == 10 {
      assert n % 10 < 10;
    } else {
      assert n % 16 < 16;
    }
    DigitTable('0', n % base);
  }

  /** One turn of the recursive printers. */
  lemma NumeralTurn(n: nat, base: nat)
    requires IsBase(base)
    ensures Numeral(n, base) == (if n / base != 0 then Numeral(n / base, base) else []) + [DigitChar(n % base)]
  {
    if n >= base {
      Quotient(n, base);
    } else {
      SmallQuotient(n, base);
    }
  }

  lemma SmallQuotient(n: nat, base: nat)
    requires IsBase(base) && n < base
    ensures n / base == 0 && n % base == n
  {
    if base == 10 {
      assert n / 10 == 0;
    } else {
      assert n / 16 == 0;
    }
  }

  /** The numeral of a signed number. */
  function SignedNumeral(i: int): string {
    if i < 0 then "-" + Numeral(-i, 10) else Numeral(i, 10)
  }

  // ---------------------------------------------------------------- printing

  class Printer {
    const outbuf: array<char>
    var outlen: nat

    constructor (outbuf: array<char>)
      ensures this.outbuf == outbuf && outlen == 0
    {
      this.outbuf, outlen := outbuf, 0;
    }

    ghost function Out(): string
      requires outlen <= outbuf.Length
      reads this, outbuf
    {
      outbuf[..outlen]
    }

    method PrintCh(ch: char)
      requires outlen < outbuf.Length
      modifies this, outbuf
      ensures outlen <= outbuf.Length && Out() == old(Out()) + [ch]
    {
      outbuf[outlen] := ch;
      outlen := outlen + 1;
    }

    method PrintString(s: string)
      requires outlen + |s| <= outbuf.Length
      modifies this, outbuf
      ensures outlen <= outbuf.Length && Out() == old(Out()) + s
    {
      var i := 0;
      while i < |s|
        invariant 0 <= i <= |s| && outlen == old(outlen) + i && outlen <= outbuf.Length
        invariant Out() == old(Out()) + s[..i]
      {
        PrintCh(s[i]);
        i := i + 1;
      }
    }

    /** Appends the signed decimal numeral, for every 32-bit argument. */
    method PrintDec(arg: Word)
      requires outlen + |SignedNumeral(Signed(arg))| <= outbuf.Length
      modifies this, outbuf
      ensures outlen <= outbuf.Length && Out() == old(Out()) + SignedNumeral(Signed(arg))
      decreases if Signed(arg) < 0 then U32_LIMIT else arg, 1
    {
      hide Numeral, Canonical, Value, AllDigits;
      var integer := Signed(arg);
      if integer == Signed(0x8000_0000) {
        LeastNumeral();
        PrintString("-2147483648");
      } else {
        if integer < 0 {
          integer := -integer;
          PrintCh('-');
        }
        PrintMagnitude(integer);
      }
    }

    /** The last two lines of print_dec, reached with the sign printed. */
    method PrintMagnitude(integer: nat)
      requires integer < SIGN_LIMIT && outlen + |Numeral(integer, 10)| <= outbuf.Length
      modifies this, outbuf
      ensures outlen <= outbuf.Length && Out() == old(Out()) + Numeral(integer, 10)
      decreases integer, 0
    {
      hide Numeral, Canonical, Value, AllDigits;
      NumeralTurn(integer, 10);
      if integer / 10 != 0 {
        PrintDec(integer / 10);
      }
      PrintCh('0' + (integer % 10) as char);
    }

    /** Appends the hexadecimal numeral. */
    method PrintHex(arg: Word)
      requires outlen + |Numeral(arg, 16)| <= outbuf.Length
      modifies this, outbuf
      ensures outlen <= outbuf.Length && Out() == old(Out()) + Numeral(arg, 16)
      decreases arg
    {
      hide Numeral;
      NumeralTurn(arg, 16);
      if arg / 16 != 0 {
        PrintHex(arg / 16);
      }
      if arg % 16 < 10 {
        PrintCh('0' + (arg % 16) as char);
      } else {
        PrintCh('a' + (arg % 16 - 10) as char);
      }
    }
  }

  lemma NumeralStep(q: nat, d: nat, s: string)
    requires q > 0 && d < 10 && Numeral(q, 10) == s
    ensures Numeral(10 * q + d, 10) == s + [DigitChar(d)]
  {
    DivMod(q, d, 10);
  }

  lemma LeastNumeral()
    ensures SignedNumeral(Signed(0x8000_0000)) == "-2147483648"
  {
    hide Numeral, Canonical, Value, AllDigits;
    assert Numeral(21474, 10) == "21474" by {
      NumeralTurn(2, 10);
      NumeralStep(2, 1, "2");
      NumeralStep(21, 4, "21");
      NumeralStep(214, 7, "214");
      NumeralStep(2147, 4, "2147");
    }
    assert Numeral(214748364, 10) == "214748364" by {
      NumeralStep(21474, 8, "21474");
      NumeralStep(214748, 3, "214748");
      NumeralStep(2147483, 6, "2147483");
      NumeralStep(21474836, 4, "21474836");
    }
    NumeralStep(214748364, 8, "214748364");
  }

  // ---------------------------------------------------------------- scanning

  predicate IsBlank(ch: char) {
    ch == '\n' || ch == ' '
  }

  /** Number of leading characters that are blank. */
  function Blanks(s: string): (k: nat)
    ensures k <= |s| && (forall i :: 0 <= i < k ==> IsBlank(s[i])) && (k < |s| ==> !IsBlank(s[k]))
  {
    if s != [] && IsBlank(s[0]) then 1 + Blanks(s[1..]) else 0
  }

  /** Number of leading characters that are digits. */
  function Span(s: string, base: nat): (k: nat)
    ensures k <= |s| && AllDigits(s[..k], base) && (k < |s| ==> !IsDigit(s[k], base))
  {
    if s != [] && IsDigit(s[0], base) then
      var k := Span(s[1..], base);
      assert s[..1 + k] == [s[0]] + s[1..][..k];
      1 + k
    else 0
  }

  function Skipped(s: string): string {
    s[Blanks(s)..]
  }

  /** The scan ends: a character that is no digit follows. */
  predicate Ends(s: string, base: nat) {
    Span(Skipped(s), base) < |Skipped(s)|
  }

  /** What is left after one scan, its terminator consumed as well. */
  function Rest(s: string, base: nat): string
    requires Ends(s, base)
  {
    Skipped(s)[Span(Skipped(s), base) + 1..]
  }

  /** The value of a digit string modulo 2^32. */
  function Scanned(s: string, base: nat): Word
    requires Ends(s, base)
  {
    Wrap(Value(Skipped(s)[..Span(Skipped(s), base)], base))
  }

  /** Both counts are forced by what is around them. */
  lemma {:induction false} BlanksAre(s: string, k: nat)
    requires k < |s| && !IsBlank(s[k]) && forall i :: 0 <= i < k ==> IsBlank(s[i])
    ensures Blanks(s) == k
  {
    if k > 0 {
      assert IsBlank(s[0]);
      BlanksAre(s[1..], k - 1);
    }
  }

  lemma {:induction false} SpanIs(s: string, k: nat, base: nat)
    requires k < |s| && !IsDigit(s[k], base) && forall i :: 0 <= i < k ==> IsDigit(s[i], base)
    ensures Span(s, base) == k
  {
    if k > 0 {
      assert IsDigit(s[0], base);
      SpanIs(s[1..], k - 1, base);
    }
  }

  /** Any blanks, a digit string, a terminator: the value modulo 2^32 is scanned. */
  lemma ScanDigits(blanks: string, digits: string, end: char, more: string, base: nat)
    requires IsBase(base) && AllDigits(digits, base) && !IsDigit(end, base)
    requires forall i :: 0 <= i < |blanks| ==> blanks[i] == ' ' || blanks[i] == '\n'
    requires digits == [] ==> end != ' ' && end != '\n'
    ensures var s := blanks + digits + [end] + more;
            Ends(s, base) && Scanned(s, base) == Wrap(Value(digits, base)) && Rest(s, base) == more
  {
    hide Value;
    var s := blanks + digits + [end] + more;
    var tail := digits + [end] + more;
    var b, d := |blanks|, |digits|;
    assert s[b] == tail[0];
    assert forall i :: 0 <= i < b ==> s[i] == blanks[i];
    assert !IsBlank(s[b]) by {
      if d > 0 { assert s[b] == digits[0] && IsDigit(digits[0], base); }
    }
    BlanksAre(s, b);
    assert Skipped(s) == tail;
    assert tail[d] == end && forall i :: 0 <= i < d ==> tail[i] == digits[i];
    SpanIs(tail, d, base);
    assert tail[..d] == digits && tail[d + 1..] == more;
  }

  class Scanner {
    const input: string
    var pos: nat

    constructor (input: string)
      ensures this.input == input && pos == 0
    {
      this.input, pos := input, 0;
    }

    ghost function Ahead(): string
      requires pos <= |input|
      reads this
    {
      input[pos..]
    }

    method Read() returns (ch: char)
      requires pos < |input|
      modifies this
      ensures pos <= |input| && old(Ahead()) == [ch] + Ahead()
    {
      ch := input[pos];
      pos := pos + 1;
    }

    /** Reads up to the first character that is not blank. */
    method SkipBlanks() returns (ch: char)
      requires pos <= |input| && Blanks(Ahead()) < |Ahead()|
      modifies this
      ensures pos <= |input| && [ch] + Ahead() == Skipped(old(Ahead()))
    {
      ghost var skipped := Skipped(Ahead());
      ch := Read();
      while ch == '\n' || ch == ' '
        invariant pos <= |input| && Blanks([ch] + Ahead()) < |[ch] + Ahead()| && Skipped([ch] + Ahead()) == skipped
        decreases |input| - pos
      {
        assert ([ch] + Ahead())[1..] == Ahead();
        ch := Read();
      }
    }

    /** Scans a decimal numeral; overflow wraps. */
    method ScanDec() returns (num: Word)
      requires pos <= |input| && Ends(Ahead(), 10)
      modifies this
      ensures pos <= |input| && num == Scanned(old(Ahead()), 10) && Ahead() == Rest(old(Ahead()), 10)
    {
      hide Value, Span, Blanks, Wrap, Scanned, Rest, Scanning, AllDigits;
      ghost var a, s, k := Ahead(), Skipped(Ahead()), 0;
      num := 0;
      var ch := SkipBlanks();
      ScanStart(s, 10);
      while '0' <= ch <= '9'
        invariant pos <= |input| && k < |s| && [ch] + Ahead() == s[k..]
        invariant Scanning(s, k, 10, num)
        decreases |input| - pos
      {
        ScanTurn(s, k, 10, num);
        ghost var next := Wrap(Wrap(num * 10) + Digit(ch));
        num := Wrap(num * 10);
        num := Wrap(num + (ch as int - '0' as int));
        assert num == next && ch == s[k] && Scanning(s, k + 1, 10, next);
        ch := Read();
        k := k + 1;
      }
      assert s[k] == ch && Ahead() == s[k..][1..];
      ScanEnd(a, k, 10, num);
    }

    /** Scans a hexadecimal numeral with small letters; overflow wraps. */
    method ScanHex() returns (num: Word)
      requires pos <= |input| && Ends(Ahead(), 16)
      modifies this
      ensures pos <= |input| && num == Scanned(old(Ahead()), 16) && Ahead() == Rest(old(Ahead()), 16)
    {
      hide Value, Span, Blanks, Wrap, Scanned, Rest, Scanning, AllDigits;
      ghost var a, s, k := Ahead(), Skipped(Ahead()), 0;
      num := 0;
      var ch := SkipBlanks();
      ScanStart(s, 16);
      while '0' <= ch <= '9' || 'a' <= ch <= 'f'
        invariant pos <= |input| && k < |s| && [ch] + Ahead() == s[k..]
        invariant Scanning(s, k, 16, num)
        decreases |input| - pos
      {
        ScanTurn(s, k, 16, num);
        ghost var next := Wrap(Wrap(num * 16) + Digit(ch));
        num := Wrap(num * 16);
        if '0' <= ch <= '9' {
          num := Wrap(num + (ch as int - '0' as int));
        } else {
          num := Wrap(num + (ch as int - 'a' as int + 10));
        }
        assert num == next && ch == s[k] && Scanning(s, k + 1, 16, next);
        ch := Read();
        k := k + 1;
      }
      assert s[k] == ch && Ahead() == s[k..][1..];
      ScanEnd(a, k, 16, num);
    }
  }

  /** k digits of s are taken, their value is num. */
  predicate Scanning(s: string, k: nat, base: nat, num: Word) {
    k <= Span(s, base) < |s| && AllDigits(s[..k], base) && num == Wrap(Value(s[..k], base))
  }

  lemma ScanStart(s: string, base: nat)
    requires Span(s, base) < |s|
    ensures Scanning(s, 0, base, 0) && s[0..] == s
  {
  }

  /** A scanning loop left at a character that is no digit has taken the whole digit string. */
  lemma ScanEnd(a: string, k: nat, base: nat, num: Word)
    requires Ends(a, base) && Scanning(Skipped(a), k, base, num) && !IsDigit(Skipped(a)[k], base)
    ensures num == Scanned(a, base) && Rest(a, base) == Skipped(a)[k..][1..]
  {
    hide Value, Wrap;
    var s := Skipped(a);
    forall j | 0 <= j < Span(s, base)
      ensures IsDigit(s[j], base)
    {
      assert s[..Span(s, base)][j] == s[j];
    }
  }

  /** One turn of a scanning loop, standing on a digit. */
  lemma ScanTurn(s: string, k: nat, base: nat, num: Word)
    requires IsBase(base) && Scanning(s, k, base, num) && IsDigit(s[k], base)
    ensures k + 1 < |s| && Scanning(s, k + 1, base, Wrap(Wrap(num * base) + Digit(s[k])))
  {
    hide Wrap;
    var v := Value(s[..k], base);
    assert s[..k + 1][..k] == s[..k];
    assert Value(s[..k + 1], base) == base * v + Digit(s[k]);
    Wraps(v, base, Digit(s[k]));
  }

  lemma Wraps(v: nat, base: nat, d: nat)
    requires IsBase(base)
    ensures Wrap(Wrap(Wrap(v) * base) + d) == Wrap(base * v + d)
  {
    var q, r := v / U32_LIMIT, Wrap(v);
    var p, t := (r * base) / U32_LIMIT, Wrap(r * base);
    assert v == U32_LIMIT * q + r && r * base == U32_LIMIT * p + t;
    if base == 10 {
      WrapShift(t + d, 10 * q + p);
    } else {
      WrapShift(t + d, 16 * q + p);
    }
  }

  lemma WrapShift(a: nat, q: nat)
    ensures Wrap(U32_LIMIT * q + a) == Wrap(a)
  {
  }

  // ---------------------------------------------------------------- round trips

  /** scan_hex reads back what print_hex wrote, for every 32-bit number. */
  lemma HexRoundTrip(n: Word, blanks: string, end: char, more: string)
    requires !('0' <= end <= '9' || 'a' <= end <= 'f')
    requires forall i :: 0 <= i < |blanks| ==> blanks[i] == ' ' || blanks[i] == '\n'
    ensures var s := blanks + Numeral(n, 16) + [end] + more;
            Ends(s, 16) && Scanned(s, 16) == n && Rest(s, 16) == more
  {
    hide Blanks, Span, Numeral, Value, AllDigits, Scanned, Ends, Rest, Skipped;
    ScanDigits(blanks, Numeral(n, 16), end, more, 16);
  }

  /** scan_dec reads back what print_dec wrote exactly when the sign bit is clear: it stops at a sign. */
  lemma DecRoundTrip(n: Word, blanks: string, end: char, more: string)
    requires !('0' <= end <= '9') && forall i :: 0 <= i < |blanks| ==> blanks[i] == ' ' || blanks[i] == '\n'
    ensures var s := blanks + SignedNumeral(Signed(n)) + [end] + more;
            Ends(s, 10) && (Scanned(s, 10) == n && Rest(s, 10) == more <==> n < SIGN_LIMIT)
    ensures n >= SIGN_LIMIT ==> Scanned(blanks + SignedNumeral(Signed(n)) + [end] + more, 10) == 0
  {
    hide Blanks, Span, Numeral, Value, AllDigits, Scanned, Ends, Rest, Skipped;
    if n < SIGN_LIMIT {
      ScanDigits(blanks, Numeral(n, 10), end, more, 10);
    } else {
      SignStops(blanks, Numeral(-Signed(n), 10) + [end] + more);
      assert blanks + SignedNumeral(Signed(n)) + [end] + more == blanks + ['-'] + (Numeral(-Signed(n), 10) + [end] + more);
    }
  }

  lemma SignStops(blanks: string, rest: string)
    requires forall i :: 0 <= i < |blanks| ==> blanks[i] == ' ' || blanks[i] == '\n'
    ensures Ends(blanks + ['-'] + rest, 10) && Scanned(blanks + ['-'] + rest, 10) == 0
  {
    ScanDigits(blanks, [], '-', rest, 10);
    assert blanks + [] + ['-'] + rest == blanks + ['-'] + rest;
  }

  /** Two 32-bit numbers are never printed alike. */
  lemma PrintedApart(n: Word, m: Word)
    ensures SignedNumeral(Signed(n)) == SignedNumeral(Signed(m)) ==> n == m
    ensures Numeral(n, 16) == Numeral(m, 16) ==> n == m
  {
    hide Numeral;
    var i, j := Signed(n), Signed(m);
    if SignedNumeral(i) == SignedNumeral(j) {
      SignedApart(i, j);
    }
  }

  lemma SignedApart(i: int, j: int)
    requires SignedNumeral(i) == SignedNumeral(j)
    ensures i == j
  {
    hide Numeral;
    if i < 0 && j < 0 {
      assert ("-" + Numeral(-i, 10))[1..] == Numeral(-i, 10);
      assert ("-" + Numeral(-j, 10))[1..] == Numeral(-j, 10);
    }
  }
}
