/** Printing and parsing numbers: `ltostr` and `kstrtol` of kernel/memory/string.c. */
module Numerals {
  import opened Basics

  const BUFFER := 50
  const ZERO := 48
  const LETTER_A := 65

  /** Entry `d` of the digit table "0123456789ABCDEFGHIJKLMNOPQRSTUVWXYZ". */
  function DigitByte(d: nat): (b: Byte)
    requires d < 36
    ensures b != 0
  {
    if d < 10 then ZERO + d else LETTER_A + (d - 10)
  }

  /** The digit that a byte of the table denotes. */
  function DigitOf(b: Byte): int {
    if b < LETTER_A then b - ZERO else b - LETTER_A + 10
  }

  /** What a row of digits denotes, most significant digit first. */
  function Value(s: seq<Byte>, base: nat): int {
    if s == [] then 0 else Value(s[..|s| - 1], base) * base + DigitOf(s[|s| - 1])
  }

  predicate IsDigit(b: Byte, base: nat) {
    (ZERO <= b < ZERO + 10 && b - ZERO < base) || (LETTER_A <= b < LETTER_A + 26 && b - LETTER_A + 10 < base)
  }

  predicate IsNumeral(s: seq<Byte>, base: nat) {
    forall i :: 0 <= i < |s| ==> IsDigit(s[i], base)
  }

  // ----- digits as characters

  /** The digit that a character of the table denotes. */
  function Digit(c: char): int {
    if '0' <= c <= '9' then c as int - '0' as int else c as int - 'A' as int + 10
  }

  /** What a text denotes in a base, by the places of its characters. */
  function Positional(text: string, base: nat): int {
    if text == "" then 0 else Positional(text[..|text| - 1], base) * base + Digit(text[|text| - 1])
  }

  function Chars(s: seq<Byte>): (text: string)
    ensures |text| == |s| && forall i :: 0 <= i < |s| ==> text[i] == s[i] as char
  {
    seq(|s|, i requires 0 <= i < |s| => s[i] as char)
  }

  /** The text is made of the first `base` characters of the table. */
  predicate InTable(text: string, base: nat)
    requires base <= 36
  {
    forall i :: 0 <= i < |text| ==> text[i] in "0123456789ABCDEFGHIJKLMNOPQRSTUVWXYZ"[..base]
  }

  /** Digit `d` is printed as entry `d` of the source's table. */
  lemma DigitByteIsEntry(d: nat)
    requires d < 36
    ensures DigitByte(d) == "0123456789ABCDEFGHIJKLMNOPQRSTUVWXYZ"[d] as int
    ensures Digit(DigitByte(d) as char) == d
  {
    var table := "0123456789ABCDEFGHIJKLMNOPQRSTUVWXYZ";
    assert table[..10] == "0123456789" && table[10..] == "ABCDEFGHIJKLMNOPQRSTUVWXYZ";
    if d < 10 {
      assert table[d] == table[..10][d] == '0' + d as char;
    } else {
      assert table[d] == table[10..][d - 10] == 'A' + (d - 10) as char;
    }
  }

  /** The digits of a base are the first entries of the source's table. */
  lemma IsDigitExact(b: Byte, base: nat)
    requires base <= 36
    ensures IsDigit(b, base) <==> exists d :: 0 <= d < base && DigitByte(d) == b
  {
    if ZERO <= b < ZERO + 10 && b - ZERO < base {
      assert DigitByte(b - ZERO) == b;
    } else if LETTER_A <= b && b - LETTER_A + 10 < base {
      assert DigitByte(b - LETTER_A + 10) == b;
    }
  }

  /** The number of digits that `n` needs. */
  function DigitCount(n: nat, base: nat): (c: nat)
    requires 2 <= base
    ensures 1 <= c
  {
    if n < base then 1 else 1 + DigitCount(Quotient(n, base), base)
  }

  /** `n / base`, by subtraction. */
  function Quotient(n: nat, base: nat): (q: nat)
    requires 2 <= base
    ensures q == 0 <==> n < base
    ensures 0 < n ==> q < n
  {
    if n < base then 0 else 1 + Quotient(n - base, base)
  }

  /** `n % base`, by subtraction. */
  function LastDigit(n: nat, base: nat): (d: nat)
    requires 2 <= base
    ensures d < base
  {
    if n < base then n else LastDigit(n - base, base)
  }

  lemma {:induction false} QuotientRemainder(n: nat, base: nat)
    requires 2 <= base
    ensures n == Quotient(n, base) * base + LastDigit(n, base)
  {
    if base <= n {
      QuotientRemainder(n - base, base);
      assert (1 + Quotient(n - base, base)) * base == base + Quotient(n - base, base) * base;
    }
  }

  lemma {:induction false} QuotientAtMost(n: nat, base: nat, m: nat)
    requires 2 <= base && n < 2 * m
    ensures Quotient(n, base) < m
  {
    if base <= n {
      QuotientAtMost(n - base, base, m - 1);
    }
  }

  /** The two operators of the source. */
  method DivMod(n: nat, base: nat) returns (q: nat, d: nat)
    requires 2 <= base
    ensures q == Quotient(n, base) && d == LastDigit(n, base)
  {
    QuotientRemainder(n, base);
    DivisionIs(n, base, Quotient(n, base), LastDigit(n, base));
    q := n / base;
    d := n % base;
  }

  lemma DivisionIs(n: nat, base: nat, q: nat, d: nat)
    requires d < base && n == q * base + d
    ensures n / base == q && n % base == d
  {
    assert n == (n / base) * base + n % base;
    DivisionIsUnique(n / base, n % base, q, d, base);
  }

  lemma {:induction false} DivisionIsUnique(q: nat, d: nat, q': nat, d': nat, base: nat)
    requires d < base && d' < base && q * base + d == q' * base + d'
    ensures q == q' && d == d'
  {
    Product(q, base);
    Product(q', base);
    if 0 < q && 0 < q' {
      assert q * base == base + (q - 1) * base && q' * base == base + (q' - 1) * base;
      DivisionIsUnique(q - 1, d, q' - 1, d', base);
    }
  }

  lemma Product(a: nat, base: nat)
    ensures if a == 0 then a * base == 0 else a * base >= base
  {
    if 0 < a {
      assert a * base == base + (a - 1) * base;
    }
  }

  function Less(padding: int): nat {
    if padding <= 0 then 0 else padding - 1
  }

  /** The text for `n` padded with zeros: at least one digit, and on until number and padding are used up. */
  function Numeral(n: nat, base: nat, padding: int): (s: seq<Byte>)
    requires 2 <= base <= 36
    decreases n, if padding < 0 then 0 else padding
  {
    var rest, pad := Quotient(n, base), Less(padding);
    (if rest == 0 && pad == 0 then [] else Numeral(rest, base, pad)) + [DigitByte(LastDigit(n, base))]
  }

  lemma {:induction false} NumeralLength(n: nat, base: nat, padding: int)
    requires 2 <= base <= 36
    ensures |Numeral(n, base, padding)| == Max(DigitCount(n, base), padding)
    decreases n, if padding < 0 then 0 else padding
  {
    QuotientRemainder(n, base);
    if Quotient(n, base) != 0 || Less(padding) != 0 {
      NumeralLength(Quotient(n, base), base, Less(padding));
    }
  }

  /** The text denotes the number, is made of digits of the base, and has the promised length. */
  lemma {:induction false} NumeralMeans(n: nat, base: nat, padding: int)
    requires 2 <= base <= 36
    ensures Value(Numeral(n, base, padding), base) == n
    ensures IsNumeral(Numeral(n, base, padding), base)
    ensures |Numeral(n, base, padding)| == Max(DigitCount(n, base), padding)
    decreases n, if padding < 0 then 0 else padding
  {
    NumeralLength(n, base, padding);
    QuotientRemainder(n, base);
    DigitMeans(LastDigit(n, base), base);
    if Quotient(n, base) == 0 && Less(padding) == 0 {
      AppendDigit([], DigitByte(LastDigit(n, base)), base);
    } else {
      NumeralMeans(Quotient(n, base), base, Less(padding));
      AppendDigit(Numeral(Quotient(n, base), base, Less(padding)), DigitByte(LastDigit(n, base)), base);
    }
  }

  lemma CharsAppend(front: seq<Byte>, last: Byte, base: nat)
    requires base <= 36
    ensures Positional(Chars(front + [last]), base) == Positional(Chars(front), base) * base + Digit(last as char)
    ensures InTable(Chars(front), base) && last as char in "0123456789ABCDEFGHIJKLMNOPQRSTUVWXYZ"[..base] ==>
      InTable(Chars(front + [last]), base)
  {
    assert Chars(front + [last])[..|front|] == Chars(front);
  }

  /** As characters: the text is made of the source's digits of the base and denotes the number by position. */
  lemma {:induction false} PrintsPositional(n: nat, base: nat, padding: int)
    requires 2 <= base <= 36
    ensures Positional(Chars(Numeral(n, base, padding)), base) == n
    ensures InTable(Chars(Numeral(n, base, padding)), base)
    decreases n, if padding < 0 then 0 else padding
  {
    var d, table := LastDigit(n, base), "0123456789ABCDEFGHIJKLMNOPQRSTUVWXYZ";
    QuotientRemainder(n, base);
    DigitByteIsEntry(d);
    assert table[..base][d] == table[d];
    if Quotient(n, base) == 0 && Less(padding) == 0 {
      CharsAppend([], DigitByte(d), base);
    } else {
      PrintsPositional(Quotient(n, base), base, Less(padding));
      CharsAppend(Numeral(Quotient(n, base), base, Less(padding)), DigitByte(d), base);
    }
  }

  function Power(base: nat, k: nat): nat {
    if k == 0 then 1 else base * Power(base, k - 1)
  }

  /** The digit count is the least that reaches the number. */
  lemma {:induction false} DigitCountExact(n: nat, base: nat)
    requires 2 <= base
    ensures n < Power(base, DigitCount(n, base))
    ensures DigitCount(n, base) == 1 || Power(base, DigitCount(n, base) - 1) <= n
  {
    if base <= n {
      var q, c := Quotient(n, base), DigitCount(n, base);
      QuotientRemainder(n, base);
      DigitCountExact(q, base);
      assert Power(base, 0) == 1;
      DigitBounds(n, q, LastDigit(n, base), base, Power(base, c - 2), Power(base, c - 1));
    }
  }

  lemma DigitBounds(n: nat, q: nat, d: nat, base: nat, lo: nat, hi: nat)
    requires n == q * base + d && d < base && lo <= q < hi
    ensures base * lo <= n < base * hi
  {
    TimesBase(q + 1, hi, base);
    assert (q + 1) * base == q * base + base;
    TimesBase(lo, q, base);
  }

  lemma TimesBase(a: nat, b: nat, base: nat)
    requires a <= b
    ensures base * a == a * base <= base * b == b * base
  {
    assert base * b == a * base + (b - a) * base;
  }

  lemma DigitMeans(d: nat, base: nat)
    requires d < base <= 36
    ensures IsDigit(DigitByte(d), base) && DigitOf(DigitByte(d)) == d
  {
  }

  lemma AppendDigit(front: seq<Byte>, last: Byte, base: nat)
    ensures Value(front + [last], base) == Value(front, base) * base + DigitOf(last)
    ensures IsNumeral(front, base) && IsDigit(last, base) ==> IsNumeral(front + [last], base)
  {
    assert (front + [last])[..|front|] == front;
  }

  lemma {:induction false} CountBound(n: nat, base: nat, k: nat)
    requires 2 <= base && 1 <= k && n < Pow2(k)
    ensures DigitCount(n, base) <= k
  {
    if base <= n {
      QuotientAtMost(n, base, Pow2(k - 1));
      CountBound(Quotient(n, base), base, k - 1);
    }
  }

  function Pow2(k: nat): nat {
    if k == 0 then 1 else 2 * Pow2(k - 1)
  }

  /** Exactly which paddings fit: the buffer has room for 49 bytes and the terminator. */
  lemma FitsBuffer(n: nat, base: nat, padding: int)
    requires n < WORD && 2 <= base <= 36
    ensures |Numeral(n, base, padding)| <= 49 <==> padding <= 49
  {
    assert Pow2(32) == WORD by {
      assert Pow2(8) == 256;
      assert Pow2(16) == 65536;
      assert Pow2(24) == 0x100_0000;
    }
    CountBound(n, base, 32);
    NumeralMeans(n, base, padding);
  }

  // ----- the text at an offset

  /** The bytes from `at` up to the first zero byte. */
  ghost predicate TextAt(buf: seq<Byte>, at: nat, text: seq<Byte>) {
    at + |text| < |buf| && buf[at..at + |text|] == text && buf[at + |text|] == 0 && 0 !in text
  }

  /** `*str` read as a signed char. */
  function SignedChar(b: Byte): int {
    if b < 128 then b else b - 256
  }

  /** It is the value of the same eight bits in two's complement. */
  lemma SignedCharIs(b: Byte)
    ensures SignedChar(b) == (b + 128) % 256 - 128
  {
  }

  /** A text of the characters '0' to '9'. */
  predicate IsDecimal(s: seq<Byte>) {
    forall i :: 0 <= i < |s| ==> '0' as int <= s[i] <= '9' as int
  }

  lemma {:induction false} DecimalSumIsPositional(s: seq<Byte>)
    requires IsDecimal(s)
    ensures DecimalSum(s) == Positional(Chars(s), 10)
  {
    if s != [] {
      DecimalSumIsPositional(s[..|s| - 1]);
      assert s == s[..|s| - 1] + [s[|s| - 1]];
      CharsAppend(s[..|s| - 1], s[|s| - 1], 10);
    }
  }

  /** The unbounded sum that `kstrtol` accumulates modulo 2^32. */
  function DecimalSum(s: seq<Byte>): int {
    if s == [] then 0 else DecimalSum(s[..|s| - 1]) * 10 + SignedChar(s[|s| - 1]) - ZERO
  }

  lemma WrapStep(a: int, b: int)
    ensures (((a % WORD) * 10) % WORD + b) % WORD == (a * 10 + b) % WORD
  {
  }

  lemma TextByte(buf: seq<Byte>, at: nat, text: seq<Byte>, k: nat)
    requires TextAt(buf, at, text) && k <= |text|
    ensures buf[at + k] == if k < |text| then text[k] else 0
    ensures k < |text| ==> text[k] != 0
  {
    assert k < |text| ==> buf[at..at + |text|][k] == text[k];
  }

  /** `kstrtol`: the decimal sum of the text, wrapped to 32 bits. */
  method KStrToL(buf: array<Byte>, str: nat, ghost text: seq<Byte>) returns (r: nat)
    requires TextAt(buf[..], str, text)
    ensures r == DecimalSum(text) % WORD
    ensures IsDecimal(text) ==> r == Positional(Chars(text), 10) % 0x1_0000_0000
  {
    if IsDecimal(text) {
      DecimalSumIsPositional(text);
    }
    r := 0;
    var i := str;
    TextByte(buf[..], str, text, 0);
    while buf[i] != 0
      invariant str <= i <= str + |text|
      invariant buf[i] == if i < str + |text| then text[i - str] else 0
      invariant r == DecimalSum(text[..i - str]) % WORD
      decreases str + |text| - i
    {
      TextByte(buf[..], str, text, i + 1 - str);
      assert text[..i + 1 - str][..i - str] == text[..i - str];
      WrapStep(DecimalSum(text[..i - str]), SignedChar(buf[i]) - ZERO);
      r := (r * 10) % WORD;
      r := (r + (SignedChar(buf[i]) - ZERO)) % WORD;
      i := i + 1;
    }
    assert text[..i - str] == text;
  }

  /** The bytes from `at` up to the terminator at 49 are the source's digits of the base, denote the number by
      position, and are as many as the number or the padding needs. */
  ghost predicate Printed(buf: seq<Byte>, at: nat, number: nat, base: nat, padding: int)
    requires 2 <= base <= 36
  {
    && at < 49 < |buf| && buf[49] == 0 && 49 - at == Max(DigitCount(number, base), padding)
    && InTable(Chars(buf[at..49]), base) && Positional(Chars(buf[at..49]), base) == number
  }

  lemma TextIsPrinted(buf: seq<Byte>, at: nat, number: nat, base: nat, padding: int)
    requires 2 <= base <= 36 && TextAt(buf, at, Numeral(number, base, padding))
    requires at + |Numeral(number, base, padding)| == 49
    ensures Printed(buf, at, number, base, padding)
  {
    NumeralLength(number, base, padding);
    PrintsPositional(number, base, padding);
  }

  class Printer {
    const buffer: array<Byte>

    ghost predicate Valid() {
      buffer.Length == BUFFER
    }

    constructor ()
      ensures Valid() && fresh(buffer) && buffer.Length == 50
    {
      buffer := new Byte[BUFFER](i => 0);
    }

    /** `ltostr`: the offset of the text in the buffer, or nothing for base 1. */
    method LToStr(number: nat, base: nat, padding: int) returns (r: Option<nat>)
      requires Valid() && number < WORD && 1 <= base <= 36 && padding <= BUFFER - 1
      modifies buffer
      ensures base == 1 ==> r == None
      ensures 1 < base ==> r.Some? && TextAt(buffer[..], r.value, Numeral(number, base, padding))
      ensures 1 < base ==> Printed(buffer[..], r.value, number, base, padding)
    {
      var ret := BUFFER - 1;
      buffer[ret] := 0;
      if base == 1 {
        return None;
      }
      NumeralFits(number, base, padding);
      ret := WriteDigits(number, base, padding);
      BytesAreText(buffer[..], ret, Numeral(number, base, padding));
      TextIsPrinted(buffer[..], ret, number, base, padding);
      return Some(ret);
    }

    /** The loop of `ltostr`, which fills the buffer backwards from its terminator. */
    method WriteDigits(number: nat, base: nat, padding: int) returns (ret: nat)
      requires Valid() && 2 <= base <= 36 && |Numeral(number, base, padding)| <= BUFFER - 1
      modifies buffer
      ensures ret + |Numeral(number, base, padding)| == BUFFER - 1 && buffer[BUFFER - 1] == old(buffer[BUFFER - 1])
      ensures forall k :: ret <= k < BUFFER - 1 ==> buffer[k] == Numeral(number, base, padding)[k - ret]
    {
      ghost var goal := Numeral(number, base, padding);
      ghost var left, first := |goal|, BUFFER - 1 - |goal|;
      ret := BUFFER - 1;
      var n: nat, pad: int := number, padding;
      var more := true;
      while more
        invariant 0 <= left <= |goal| && ret == first + left
        invariant goal[..left] == if more then Numeral(n, base, pad) else []
        invariant forall k :: ret <= k < BUFFER - 1 ==> buffer[k] == goal[k - first]
        invariant buffer[BUFFER - 1] == old(buffer[BUFFER - 1])
        decreases more, left
      {
        PrefixStep(goal, left, n, base, pad);
        var rest, digit := DivMod(n, base);
        ret, left := ret - 1, left - 1;
        buffer[ret] := DigitByte(digit);
        n := rest;
        pad := Less(pad);
        more := n != 0 || pad != 0;
      }
    }
  }

  lemma NumeralFits(n: nat, base: nat, padding: int)
    requires n < WORD && 2 <= base <= 36 && padding <= BUFFER - 1
    ensures |Numeral(n, base, padding)| <= BUFFER - 1 && 0 !in Numeral(n, base, padding)
  {
    FitsBuffer(n, base, padding);
    NumeralMeans(n, base, padding);
    NoZeroByte(Numeral(n, base, padding), base);
  }

  /** Taking the last digit off a prefix of the text leaves the numeral of the quotient. */
  lemma PrefixStep(goal: seq<Byte>, left: nat, n: nat, base: nat, padding: int)
    requires 2 <= base <= 36 && left <= |goal| && goal[..left] == Numeral(n, base, padding)
    ensures 0 < left && goal[left - 1] == DigitByte(LastDigit(n, base))
    ensures goal[..left - 1] ==
      if Quotient(n, base) != 0 || Less(padding) != 0 then Numeral(Quotient(n, base), base, Less(padding)) else []
  {
    assert goal[left - 1] == goal[..left][left - 1];
    assert goal[..left - 1] == goal[..left][..left - 1];
  }

  lemma BytesAreText(buf: seq<Byte>, at: nat, text: seq<Byte>)
    requires at + |text| < |buf| && buf[at + |text|] == 0 && 0 !in text
    requires forall k :: at <= k < at + |text| ==> buf[k] == text[k - at]
    ensures TextAt(buf, at, text)
  {
    assert buf[at..at + |text|] == text;
  }

  lemma NoZeroByte(s: seq<Byte>, base: nat)
    requires IsNumeral(s, base)
    ensures 0 !in s
  {
  }

  lemma {:induction false} DecimalSumIsValue(s: seq<Byte>)
    requires IsNumeral(s, 10)
    ensures DecimalSum(s) == Value(s, 10)
  {
    if s != [] {
      DecimalSumIsValue(s[..|s| - 1]);
      assert IsDigit(s[|s| - 1], 10);
    }
  }

  /** Round trip: the decimal text of a 32-bit number parses back to it, whatever its padding. */
  lemma PrintThenParse(n: nat, padding: int)
    requires n < WORD
    ensures DecimalSum(Numeral(n, 10, padding)) % WORD == n
  {
    NumeralMeans(n, 10, padding);
    DecimalSumIsValue(Numeral(n, 10, padding));
  }

  /** The two calls of kernel/main.c:93 in one buffer. */
  method RoundTrip(p: Printer, n: nat, padding: int) returns (r: nat)
    requires p.Valid() && n < WORD && padding <= BUFFER - 1
    modifies p.buffer
    ensures r == n
  {
    var text := p.LToStr(n, 10, padding);
    r := KStrToL(p.buffer, text.value, Numeral(n, 10, padding));
    PrintThenParse(n, padding);
  }
}
