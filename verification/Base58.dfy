/** `base58::EncodeBase58` (unit/libdevcore/bip44/base58.hpp). */
module Base58 {
  import opened Wrappers

  type Byte = b: nat | b < 256
  type Digit = d: nat | d < 58

  // ------------------------------------------------------------- the alphabet

  /** `base58map[d]`. */
  function Symbol(d: Digit): char {
    match d
    case 0 => '1' case 1 => '2' case 2 => '3' case 3 => '4' case 4 => '5' case 5 => '6' case 6 => '7' case 7 => '8'
    case 8 => '9' case 9 => 'A' case 10 => 'B' case 11 => 'C' case 12 => 'D' case 13 => 'E' case 14 => 'F' case 15 => 'G'
    case 16 => 'H' case 17 => 'J' case 18 => 'K' case 19 => 'L' case 20 => 'M' case 21 => 'N' case 22 => 'P' case 23 => 'Q'
    case 24 => 'R' case 25 => 'S' case 26 => 'T' case 27 => 'U' case 28 => 'V' case 29 => 'W' case 30 => 'X' case 31 => 'Y'
    case 32 => 'Z' case 33 => 'a' case 34 => 'b' case 35 => 'c' case 36 => 'd' case 37 => 'e' case 38 => 'f' case 39 => 'g'
    case 40 => 'h' case 41 => 'i' case 42 => 'j' case 43 => 'k' case 44 => 'm' case 45 => 'n' case 46 => 'o' case 47 => 'p'
    case 48 => 'q' case 49 => 'r' case 50 => 's' case 51 => 't' case 52 => 'u' case 53 => 'v' case 54 => 'w' case 55 => 'x'
    case 56 => 'y' case _ => 'z'
  }

  /** The digit of a symbol; '0', 'I', 'O', 'l' and everything else have none. */
  function DigitOf(c: char): Option<Digit> {
    var n := c as int;
    if '1' <= c <= '9' then Some(n - 49)
    else if 'A' <= c <= 'H' then Some(n - 56)
    else if 'J' <= c <= 'N' then Some(n - 57)
    else if 'P' <= c <= 'Z' then Some(n - 58)
    else if 'a' <= c <= 'k' then Some(n - 64)
    else if 'm' <= c <= 'z' then Some(n - 65)
    else None
  }

  lemma SymbolRoundTrip(d: Digit)
    ensures DigitOf(Symbol(d)) == Some(d)
  {
    hide Symbol, DigitOf;
    if d < 29 { LowSymbols(d); } else { HighSymbols(d); }
  }

  lemma LowSymbols(d: Digit)
    requires d < 29
    ensures DigitOf(Symbol(d)) == Some(d)
  {}

  lemma HighSymbols(d: Digit)
    requires d >= 29
    ensures DigitOf(Symbol(d)) == Some(d)
  {}

  lemma DigitRoundTrip(c: char)
    requires DigitOf(c).Some?
    ensures Symbol(DigitOf(c).value) == c
  {}

  predicate IsAlphanumeric(c: char) {
    '0' <= c <= '9' || 'A' <= c <= 'Z' || 'a' <= c <= 'z'
  }

  /** The alphabet: the alphanumeric characters without '0', 'I', 'O' and 'l', in order. */
  lemma Alphabet(c: char, d: Digit, e: Digit)
    ensures (exists f: Digit :: Symbol(f) == c) <==> IsAlphanumeric(c) && c !in {'0', 'I', 'O', 'l'}
    ensures d < e ==> Symbol(d) < Symbol(e)
  {
    SymbolOrder(d, e);
    if DigitOf(c).Some? {
      DigitRoundTrip(c);
      hide Symbol;
      assert Symbol(DigitOf(c).value) == c;
    }
    if f: Digit :| Symbol(f) == c {
      SymbolRoundTrip(f);
      hide Symbol;
    }
  }

  lemma SymbolOrder(d: Digit, e: Digit)
    ensures d < e ==> Symbol(d) < Symbol(e)
  {
    SymbolRoundTrip(d);
    SymbolRoundTrip(e);
    hide Symbol;
  }

  // ------------------------------------------------------------------ numbers

  /** The number that bytes denote, most significant first. */
  function NumberOf(bytes: seq<Byte>): nat {
    if bytes == [] then 0 else 256 * NumberOf(bytes[..|bytes| - 1]) + bytes[|bytes| - 1]
  }

  /** The number that base-58 digits denote, least significant first. */
  function Value(digits: seq<Digit>): nat {
    if digits == [] then 0 else digits[0] + 58 * Value(digits[1..])
  }

  function Pow(b: nat, e: nat): nat {
    if e == 0 then 1 else b * Pow(b, e - 1)
  }

  /** At least one digit, and no superfluous zero at the top. */
  predicate Trimmed(digits: seq<Digit>) {
    |digits| == 1 || (|digits| > 1 && digits[|digits| - 1] != 0)
  }

  // ---------------------------------------------- one byte into the digits

  /** The digits that the second inner loop appends for what is left in `carry`. */
  function CarryDigits(carry: nat): seq<Digit> {
    if carry == 0 then [] else [carry % 58] + CarryDigits(carry / 58)
  }

  /** Both inner loops: multiply by 256, add `carry`. */
  function MulAdd(digits: seq<Digit>, carry: nat): seq<Digit>
    decreases |digits|
  {
    if digits == [] then CarryDigits(carry)
    else
      var c: nat := carry + 256 * (digits[0] as nat);
      [c % 58] + MulAdd(digits[1..], c / 58)
  }

  lemma MulAddFirst(digits: seq<Digit>, carry: nat)
    requires digits != []
    ensures var c := carry + 256 * (digits[0] as nat);
      MulAdd(digits, carry) == [c % 58] + MulAdd(digits[1..], c / 58)
  {}

  lemma MulAddNothing(carry: nat)
    ensures MulAdd([], carry) == CarryDigits(carry)
  {}

  lemma CarryDigitsFirst(carry: nat)
    requires carry > 0
    ensures CarryDigits(carry) == [carry % 58] + CarryDigits(carry / 58)
  {}

  lemma CarryDigitsEnd()
    ensures CarryDigits(0) == []
  {}

  lemma {:induction false} CarryDigitsValue(carry: nat)
    ensures Value(CarryDigits(carry)) == carry
  {
    if carry > 0 {
      CarryDigitsValue(carry / 58);
      assert CarryDigits(carry)[1..] == CarryDigits(carry / 58);
    }
  }

  lemma {:induction false} MulAddValue(digits: seq<Digit>, carry: nat)
    ensures Value(MulAdd(digits, carry)) == 256 * Value(digits) + carry
    decreases |digits|
  {
    if digits == [] {
      CarryDigitsValue(carry);
    } else {
      var c: nat := carry + 256 * (digits[0] as nat);
      MulAddValue(digits[1..], c / 58);
      assert MulAdd(digits, carry)[1..] == MulAdd(digits[1..], c / 58);
    }
  }

  lemma {:induction false} CarryDigitsTrimmed(carry: nat)
    requires carry > 0
    ensures var d := CarryDigits(carry); |d| > 0 && d[|d| - 1] != 0
  {
    if carry >= 58 {
      CarryDigitsTrimmed(carry / 58);
    }
  }

  lemma {:induction false} MulAddTop(digits: seq<Digit>, carry: nat)
    requires |digits| > 0 && digits[|digits| - 1] != 0
    ensures var d := MulAdd(digits, carry); |d| > 1 && d[|d| - 1] != 0
    decreases |digits|
  {
    var c: nat := carry + 256 * (digits[0] as nat);
    if |digits| == 1 {
      assert digits[1..] == [];
      CarryDigitsTrimmed(c / 58);
    } else {
      MulAddTop(digits[1..], c / 58);
    }
  }

  lemma MulAddTrimmed(digits: seq<Digit>, carry: nat)
    requires Trimmed(digits)
    ensures Trimmed(MulAdd(digits, carry))
  {
    if digits[|digits| - 1] != 0 {
      MulAddTop(digits, carry);
    } else {
      assert digits[1..] == [];
      if carry / 58 > 0 { CarryDigitsTrimmed(carry / 58); }
      assert MulAdd(digits, carry) == [carry % 58] + CarryDigits(carry / 58);
    }
  }

  /** The digits after all bytes: the buffer starts as the single digit 0. */
  function Digits(data: seq<Byte>): seq<Digit> {
    if data == [] then [0] else MulAdd(Digits(data[..|data| - 1]), data[|data| - 1])
  }

  /** The digits always denote the bytes consumed so far, with no superfluous top digit. */
  lemma {:induction false} DigitsDenoteBytes(data: seq<Byte>)
    ensures Value(Digits(data)) == NumberOf(data) && Trimmed(Digits(data))
  {
    if data != [] {
      var n := |data| - 1;
      DigitsDenoteBytes(data[..n]);
      MulAddValue(Digits(data[..n]), data[n]);
      MulAddTrimmed(Digits(data[..n]), data[n]);
    } else {
      assert Value([0]) == 0 + 58 * Value([]);
    }
  }

  // ------------------------------------------------------- the buffer bound

  lemma {:induction false} PowMonotone(b: nat, d: nat, e: nat)
    requires b > 0 && d <= e
    ensures 0 < Pow(b, d) <= Pow(b, e)
    decreases e
  {
    if d < e {
      PowMonotone(b, d, e - 1);
    } else if d > 0 {
      PowMonotone(b, d - 1, e - 1);
    }
  }

  lemma EightBytes(n: nat)
    ensures Pow(256, n + 8) == 18446744073709551616 * Pow(256, n)
  {
    assert Pow(256, n + 2) == 65536 * Pow(256, n);
    assert Pow(256, n + 4) == 65536 * Pow(256, n + 2);
    assert Pow(256, n + 6) == 65536 * Pow(256, n + 4);
    assert Pow(256, n + 8) == 65536 * Pow(256, n + 6);
  }

  lemma ElevenDigits(n: nat)
    ensures Pow(58, n + 11) == 24986644000165537792 * Pow(58, n)
  {
    assert Pow(58, n + 2) == 3364 * Pow(58, n);
    assert Pow(58, n + 4) == 3364 * Pow(58, n + 2);
    assert Pow(58, n + 6) == 3364 * Pow(58, n + 4);
    assert Pow(58, n + 8) == 3364 * Pow(58, n + 6);
    assert Pow(58, n + 10) == 3364 * Pow(58, n + 8);
    assert Pow(58, n + 11) == 58 * Pow(58, n + 10);
  }

  /** Eleven digits hold eight bytes, so that 11/8 digits a byte are enough. */
  lemma {:induction false} DigitsForBytes(n: nat)
    ensures Pow(256, n) <= Pow(58, (11 * n + 7) / 8)
  {
    if n < 8 {
      FewBytes(n);
    } else {
      DigitsForBytes(n - 8);
      EightBytes(n - 8);
      ElevenDigits((11 * (n - 8) + 7) / 8);
      assert (11 * n + 7) / 8 == (11 * (n - 8) + 7) / 8 + 11;
    }
  }

  lemma FewBytes(n: nat)
    requires n < 8
    ensures Pow(256, n) <= Pow(58, (11 * n + 7) / 8)
  {
    assert Pow(256, 0) == 1 && Pow(58, 0) == 1;
    assert Pow(256, 1) == 256 && Pow(58, 2) == 3364;
    assert Pow(256, 2) == 65536 && Pow(58, 3) == 195112;
    assert Pow(256, 3) == 16777216 && Pow(58, 5) == 656356768;
    assert Pow(256, 4) == 4294967296 && Pow(58, 6) == 38068692544;
    assert Pow(256, 5) == 1099511627776 && Pow(58, 7) == 2207984167552;
    assert Pow(256, 6) == 281474976710656 && Pow(58, 9) == 7427658739644928;
    assert Pow(256, 7) == 72057594037927936 && Pow(58, 10) == 430804206899405824;
  }

  /** The size of the digit buffer: data.size() * 138 / 100 + 1. */
  function Capacity(n: nat): nat {
    n * 138 / 100 + 1
  }

  /** The product of the buffer size fits a 64-bit `size_t`. */
  predicate Sized(data: seq<Byte>) {
    |data| * 138 < 0x1_0000_0000_0000_0000
  }

  lemma {:induction false} NumberOfBound(data: seq<Byte>)
    ensures NumberOf(data) < Pow(256, |data|)
  {
    if data != [] {
      NumberOfBound(data[..|data| - 1]);
    }
  }

  lemma {:induction false} TopDigitBound(digits: seq<Digit>)
    requires |digits| > 0 && digits[|digits| - 1] != 0
    ensures Pow(58, |digits| - 1) <= Value(digits)
    decreases |digits|
  {
    if |digits| > 1 {
      TopDigitBound(digits[1..]);
    }
  }

  /** The digits of any prefix fit the buffer allocated for the whole input. */
  lemma DigitsFit(data: seq<Byte>, n: nat)
    requires |data| <= n
    ensures |Digits(data)| <= Capacity(n)
  {
    hide Digits, Value, NumberOf, Pow;
    var digits := Digits(data);
    DigitsDenoteBytes(data);
    if |digits| > 1 {
      TopDigitBound(digits);
      NumberOfBound(data);
      DigitsForBytes(|data|);
      if |digits| - 1 >= (11 * |data| + 7) / 8 {
        PowMonotone(58, (11 * |data| + 7) / 8, |digits| - 1);
      }
    }
  }

  // ------------------------------------------------------------- the encoder

  function LeadingZeros(data: seq<Byte>): (z: nat)
    ensures z <= |data|
  {
    if data == [] || data[0] != 0 then 0 else 1 + LeadingZeros(data[1..])
  }

  /** The symbols of the digits, most significant first. */
  function Render(digits: seq<Digit>): string {
    if digits == [] then "" else Render(digits[1..]) + [Symbol(digits[0])]
  }

  function Repeat<T>(x: T, n: nat): seq<T> {
    seq(n, _ => x)
  }

  /** The leading zero bytes but for the last byte, then the digits. */
  function Encoded(data: seq<Byte>): string
    requires data != []
  {
    var z := LeadingZeros(data);
    Repeat('1', if z < |data| then z else |data| - 1) + Render(Digits(data))
  }

  /** The two inner loops: `carry` enters as the byte and stays below 256; nothing is written
      past the buffer. */
  method AddByte(digits: array<Digit>, digitsLen: nat, b: Byte) returns (newLen: nat)
    requires digitsLen <= digits.Length
    requires |MulAdd(digits[..digitsLen], b)| <= digits.Length
    modifies digits
    ensures newLen <= digits.Length
    ensures digits[..newLen] == MulAdd(old(digits[..digitsLen]), b)
  {
    hide MulAdd, CarryDigits;
    ghost var before := digits[..digitsLen];
    ghost var after := MulAdd(before, b);
    var carry: nat := b;
    assert before[0..] == before && after == digits[..0] + MulAdd(before, b);
    for j := 0 to digitsLen
      invariant carry < 256
      invariant digits[j..digitsLen] == before[j..]
      invariant after == digits[..j] + MulAdd(before[j..], carry)
    {
      MulAddFirst(before[j..], carry);
      assert before[j..][1..] == before[j + 1..];
      carry := carry + 256 * (digits[j] as nat);
      digits[j] := carry % 58;
      carry := carry / 58;
    }
    newLen := digitsLen;
    assert before[digitsLen..] == [];
    MulAddNothing(carry);
    while carry != 0
      invariant digitsLen <= newLen <= digits.Length
      invariant after == digits[..newLen] + CarryDigits(carry)
    {
      CarryDigitsFirst(carry);
      digits[newLen] := carry % 58;
      newLen := newLen + 1;
      carry := carry / 58;
    }
    CarryDigitsEnd();
  }

  /** The conversion loop: the buffer ends up holding the digits of the input. */
  method Convert(data: seq<Byte>) returns (digits: array<Digit>, digitsLen: nat)
    requires Sized(data)
    ensures fresh(digits) && digits.Length == |data| * 138 / 100 + 1 && digitsLen <= digits.Length
    ensures digits[..digitsLen] == Digits(data)
  {
    hide MulAdd;
    digits := new Digit[Capacity(|data|)](_ => 0);
    digitsLen := 1;
    assert digits[..1] == [0];
    for i := 0 to |data|
      invariant digitsLen <= digits.Length
      invariant digits[..digitsLen] == Digits(data[..i])
    {
      assert data[..i + 1][..i] == data[..i];
      DigitsFit(data[..i + 1], |data|);
      digitsLen := AddByte(digits, digitsLen, data[i]);
    }
    assert data[..|data|] == data;
  }

  /** `EncodeBase58`.  The empty input is excluded: there data.size() - 1 wraps around and the
      loop over the leading zeros leaves the vector. */
  method Encode(data: seq<Byte>) returns (result: string)
    requires data != [] && Sized(data)
    ensures result == Encoded(data)
  {
    hide Digits, Symbol;
    var digits, digitsLen := Convert(data);
    result := "";
    var i := 0;
    while i < |data| - 1 && data[i] == 0
      invariant i <= |data| - 1 && result == Repeat('1', i)
      invariant LeadingZeros(data) == i + LeadingZeros(data[i..])
    {
      assert data[i..][1..] == data[i + 1..];
      result := result + ['1'];
      i := i + 1;
    }
    ghost var ones := result;
    ghost var rendered := digits[..digitsLen];
    for k := 0 to digitsLen
      invariant result == ones + Render(rendered[digitsLen - k..])
    {
      var n := digitsLen - 1 - k;
      assert rendered[n..][1..] == rendered[n + 1..];
      result := result + [Symbol(digits[n])];
    }
    assert rendered[0..] == rendered;
  }

  // ------------------------------------------------------------- the decoder

  /** The bytes of a number, most significant first, none for 0. */
  function BytesOf(n: nat): seq<Byte> {
    if n == 0 then [] else BytesOf(n / 256) + [n % 256]
  }

  predicate IsEncoding(s: string) {
    forall i | 0 <= i < |s| :: DigitOf(s[i]).Some?
  }

  /** The digits of a string, least significant first. */
  function Parsed(s: string): seq<Digit>
    requires IsEncoding(s)
  {
    if s == "" then [] else [DigitOf(s[|s| - 1]).value] + Parsed(s[..|s| - 1])
  }

  function LeadingOnes(s: string): (z: nat)
    ensures z <= |s|
  {
    if s == "" || s[0] != '1' then 0 else 1 + LeadingOnes(s[1..])
  }

  /** Decoding after section 4 of draft-msporny-base58: each leading '1' is a zero byte, the
      number that the symbols denote gives the rest; other characters are rejected. */
  function Decode(s: string): Option<seq<Byte>> {
    if IsEncoding(s) then Some(Repeat(0, LeadingOnes(s)) + BytesOf(Value(Parsed(s)))) else None
  }

  // -------------------------------------------------- numbers and digits again

  lemma BytesOfLast(m: nat, b: Byte)
    requires 256 * m + b > 0
    ensures BytesOf(256 * m + b) == BytesOf(m) + [b]
  {
    var n: nat := 256 * m + b;
    assert n / 256 == m && n % 256 == b;
  }

  lemma {:induction false} BytesOfNumber(data: seq<Byte>)
    requires data == [] || data[0] != 0
    ensures BytesOf(NumberOf(data)) == data
  {
    if data != [] {
      var n := |data| - 1;
      var m := NumberOf(data[..n]);
      BytesOfNumber(data[..n]);
      NumberOfPositive(data);
      assert NumberOf(data) == 256 * m + data[n];
      hide NumberOf;
      BytesOfLast(m, data[n]);
      assert data == data[..n] + [data[n]];
    }
  }

  lemma {:induction false} NumberOfPositive(data: seq<Byte>)
    requires data != [] && data[0] != 0
    ensures NumberOf(data) > 0
  {
    if |data| > 1 {
      NumberOfPositive(data[..|data| - 1]);
    }
  }

  lemma {:induction false} NumberOfZeros(z: nat, data: seq<Byte>)
    ensures NumberOf(Repeat(0, z) + data) == NumberOf(data)
    decreases |data|, z
  {
    var all := Repeat(0, z) + data;
    if data != [] {
      var n := |data| - 1;
      NumberOfZeros(z, data[..n]);
      assert all[..|all| - 1] == Repeat(0, z) + data[..n];
    } else if z > 0 {
      NumberOfZeros(z - 1, data);
      assert all[..|all| - 1] == Repeat(0, z - 1) + data;
      assert all[|all| - 1] == 0;
    } else {
      assert all == data;
    }
  }

  /** A byte string is its leading zeros followed by a string that starts with a nonzero byte. */
  lemma {:induction false} SplitZeros(data: seq<Byte>) returns (tail: seq<Byte>)
    ensures data == Repeat(0, LeadingZeros(data)) + tail
    ensures tail == [] || tail[0] != 0
  {
    if data == [] || data[0] != 0 {
      tail := data;
    } else {
      tail := SplitZeros(data[1..]);
    }
  }

  lemma {:induction false} LeadingZerosOf(z: nat, tail: seq<Byte>)
    requires tail == [] || tail[0] != 0
    ensures LeadingZeros(Repeat(0, z) + tail) == z
  {
    if z > 0 {
      LeadingZerosOf(z - 1, tail);
      assert (Repeat(0, z) + tail)[1..] == Repeat(0, z - 1) + tail;
    } else {
      assert Repeat(0, 0) + tail == tail;
    }
  }

  lemma {:induction false} LeadingOnesOf(z: nat, tail: string)
    requires tail == "" || tail[0] != '1'
    ensures LeadingOnes(Repeat('1', z) + tail) == z
  {
    if z > 0 {
      LeadingOnesOf(z - 1, tail);
      assert (Repeat('1', z) + tail)[1..] == Repeat('1', z - 1) + tail;
    } else {
      assert Repeat('1', 0) + tail == tail;
    }
  }

  lemma {:induction false} SplitOnes(s: string) returns (tail: string)
    ensures s == Repeat('1', LeadingOnes(s)) + tail
    ensures tail == "" || tail[0] != '1'
  {
    if s == "" || s[0] != '1' {
      tail := s;
    } else {
      tail := SplitOnes(s[1..]);
    }
  }

  lemma {:induction false} ParsedRender(digits: seq<Digit>)
    ensures IsEncoding(Render(digits)) && Parsed(Render(digits)) == digits
    ensures |Render(digits)| == |digits|
    decreases |digits|
  {
    hide Symbol, DigitOf;
    if digits != [] {
      ParsedRender(digits[1..]);
      SymbolRoundTrip(digits[0]);
      var s := Render(digits);
      assert s[..|s| - 1] == Render(digits[1..]);
    }
  }

  lemma {:induction false} RenderParsed(s: string)
    requires IsEncoding(s)
    ensures Render(Parsed(s)) == s && |Parsed(s)| == |s|
  {
    hide Symbol, DigitOf, Render, Parsed;
    if s == "" {
      EmptyParses();
      NothingRendered();
    } else {
      var n := |s| - 1;
      RenderParsed(s[..n]);
      DigitRoundTrip(s[n]);
      ParsedLast(s);
      RenderLast(Parsed(s));
      assert Parsed(s)[1..] == Parsed(s[..n]);
      assert s == s[..n] + [s[n]];
    }
  }

  lemma ParsedLast(s: string)
    requires s != "" && IsEncoding(s)
    ensures Parsed(s) == [DigitOf(s[|s| - 1]).value] + Parsed(s[..|s| - 1])
  {}

  lemma RenderLast(digits: seq<Digit>)
    requires digits != []
    ensures Render(digits) == Render(digits[1..]) + [Symbol(digits[0])]
  {}

  lemma NothingRendered()
    ensures Render([]) == ""
  {}

  /** The first symbol is the most significant digit. */
  lemma {:induction false} RenderFirst(digits: seq<Digit>)
    requires digits != []
    ensures Render(digits) != "" && Render(digits)[0] == Symbol(digits[|digits| - 1])
    decreases |digits|
  {
    hide Symbol;
    if |digits| > 1 {
      RenderFirst(digits[1..]);
    }
  }

  lemma ParsedValue(s: string)
    requires s != "" && IsEncoding(s)
    ensures Value(Parsed(s)) == (DigitOf(s[|s| - 1]).value as nat) + 58 * Value(Parsed(s[..|s| - 1]))
  {
    hide DigitOf;
    assert Parsed(s)[1..] == Parsed(s[..|s| - 1]);
  }

  lemma {:induction false} ParsedOnes(z: nat, tail: string)
    requires IsEncoding(tail)
    ensures IsEncoding(Repeat('1', z) + tail) && Value(Parsed(Repeat('1', z) + tail)) == Value(Parsed(tail))
    decreases |tail|, z
  {
    var all := Repeat('1', z) + tail;
    assert DigitOf('1') == Some(0);
    hide DigitOf, Parsed, Value;
    assert IsEncoding(all);
    if tail != "" {
      var n := |tail| - 1;
      ParsedOnes(z, tail[..n]);
      assert all[..|all| - 1] == Repeat('1', z) + tail[..n];
      ParsedValue(all);
      ParsedValue(tail);
    } else if z > 0 {
      ParsedOnes(z - 1, "");
      assert all[..|all| - 1] == Repeat('1', z - 1) + "";
      ParsedValue(all);
      EmptyParses();
      EmptyIsZero();
    } else {
      assert all == tail;
    }
  }

  /** Base-58 digits without a superfluous top digit are determined by their number. */
  lemma {:induction false} DigitsUnique(d: seq<Digit>, e: seq<Digit>)
    requires d == [] || d[|d| - 1] != 0
    requires e == [] || e[|e| - 1] != 0
    requires Value(d) == Value(e)
    ensures d == e
    decreases |d|
  {
    if d == [] {
      if e != [] { ValuePositive(e); }
    } else if e == [] {
      ValuePositive(d);
    } else {
      assert d[0] == Value(d) % 58 && e[0] == Value(e) % 58;
      DigitsUnique(d[1..], e[1..]);
      assert d == [d[0]] + d[1..] && e == [e[0]] + e[1..];
    }
  }

  lemma {:induction false} ValuePositive(d: seq<Digit>)
    requires d != [] && d[|d| - 1] != 0
    ensures Value(d) > 0
    decreases |d|
  {
    if |d| > 1 {
      ValuePositive(d[1..]);
    }
  }

  // ------------------------------------------------------------- round trips

  lemma {:induction false} ValueZero(d: seq<Digit>)
    requires Trimmed(d) && Value(d) == 0
    ensures d == [0]
  {
    if |d| > 1 { ValuePositive(d); }
  }

  lemma FirstIsNotOne(digits: seq<Digit>)
    requires digits != [] && digits[|digits| - 1] != 0
    ensures Render(digits) != "" && Render(digits)[0] != '1'
  {
    RenderFirst(digits);
    SymbolRoundTrip(digits[|digits| - 1]);
  }

  /** Decoding recovers the exact bytes, leading zeros included. */
  lemma DecodeEncoded(data: seq<Byte>)
    requires data != []
    ensures Decode(Encoded(data)) == Some(data)
  {
    hide Digits, Symbol, DigitOf, Render, Parsed, BytesOf, Value, NumberOf;
    var z := LeadingZeros(data);
    var tail := SplitZeros(data);
    var digits := Digits(data);
    var s := Render(digits);
    DigitsDenoteBytes(data);
    NumberOfZeros(z, tail);
    BytesOfNumber(tail);
    ParsedRender(digits);
    if tail == [] {
      assert NumberOf(data) == 0 by { EmptyIsZero(); }
      ValueZero(digits);
      OnlyZero();
      assert Encoded(data) == Repeat('1', |data|) + "";
      LeadingOnesOf(|data|, "");
      ParsedOnes(|data|, "");
      EmptyParses();
      EmptyIsZero();
      assert Repeat('1', |data|) + "" == Repeat('1', |data|);
      assert data == Repeat(0, |data|) + [];
    } else {
      NumberOfPositive(tail);
      if |digits| == 1 && digits[0] == 0 { OneDigit(digits); }
      FirstIsNotOne(digits);
      LeadingOnesOf(z, s);
      ParsedOnes(z, s);
    }
  }

  lemma EmptyIsZero()
    ensures NumberOf([]) == 0 && Value([]) == 0 && BytesOf(0) == []
  {}

  lemma OnlyZero()
    ensures Render([0]) == "1"
  {}

  lemma EmptyParses()
    ensures Parsed("") == []
  {}

  lemma OneDigit(digits: seq<Digit>)
    requires |digits| == 1
    ensures Value(digits) == digits[0]
  {}

  /** Encoding is injective on nonempty arrays. */
  lemma EncodedInjective(a: seq<Byte>, b: seq<Byte>)
    requires a != [] && b != [] && Encoded(a) == Encoded(b)
    ensures a == b
  {
    DecodeEncoded(a);
    DecodeEncoded(b);
  }

  lemma {:induction false} NumberOfBytesOf(n: nat)
    ensures NumberOf(BytesOf(n)) == n
    ensures n > 0 ==> BytesOf(n) != [] && BytesOf(n)[0] != 0
  {
    if n > 0 {
      NumberOfBytesOf(n / 256);
      var bytes := BytesOf(n);
      assert bytes[..|bytes| - 1] == BytesOf(n / 256);
    }
  }

  /** And every nonempty string over the alphabet is the encoding of what it decodes to. */
  lemma EncodedDecode(s: string)
    requires s != "" && IsEncoding(s)
    ensures Decode(s).Some? && Decode(s).value != [] && Encoded(Decode(s).value) == s
  {
    hide Digits, Symbol, DigitOf, Render, Parsed, BytesOf, Value, NumberOf;
    var z := LeadingOnes(s);
    var tail := SplitOnes(s);
    assert IsEncoding(tail) by { assert forall i | 0 <= i < |tail| :: tail[i] == s[z + i]; }
    ParsedOnes(z, tail);
    var n := Value(Parsed(tail));
    var bytes := BytesOf(n);
    var data := Repeat(0, z) + bytes;
    NumberOfBytesOf(n);
    NumberOfZeros(z, bytes);
    RenderParsed(tail);
    DigitsDenoteBytes(data);
    EmptyIsZero();
    if tail == "" {
      EmptyParses();
      LeadingZerosOf(z, []);
      ValueZero(Digits(data));
      OnlyZero();
    } else {
      TopOfTail(tail);
      ValuePositive(Parsed(tail));
      LeadingZerosOf(z, bytes);
      if |Digits(data)| == 1 && Digits(data)[0] == 0 { OneDigit(Digits(data)); }
      DigitsUnique(Digits(data), Parsed(tail));
    }
  }

  lemma TopOfTail(tail: string)
    requires IsEncoding(tail) && tail != "" && tail[0] != '1'
    ensures Parsed(tail) != [] && Parsed(tail)[|Parsed(tail)| - 1] != 0
  {
    RenderParsed(tail);
    RenderFirst(Parsed(tail));
  }
}
