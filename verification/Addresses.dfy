/** The address builder on top of Base58 (unit/libdevcore/bip44/addresses.hpp), from the two hash
    strings on.  How the hashes are obtained is not part of this model. */
module Addresses {
  import opened Base58
  import opened HexText

  // -------------------------------------------------------------- hex strings

  /** What `hex2dec` adds for one character; anything but a hex digit adds nothing. */
  function HexValue(c: char): (v: nat)
    ensures v < 16
  {
    if '0' <= c <= '9' then c as int - 48
    else if 'A' <= c <= 'F' then c as int - 55
    else if 'a' <= c <= 'f' then c as int - 87
    else 0
  }

  /** Both cases of a letter have one value; the digits and letters count up from 0. */
  lemma HexValueLaw(c: char)
    ensures 'A' <= c <= 'F' ==> HexValue(c) == HexValue((c as int + 32) as char)
    ensures '0' <= c < '9' || 'a' <= c < 'f' ==> HexValue((c as int + 1) as char) == HexValue(c) + 1
    ensures HexValue('0') == 0 && HexValue('9') == 9 && HexValue('a') == 10
  {}

  function HexNumber(hex: string): nat {
    if hex == "" then 0 else 16 * HexNumber(hex[..|hex| - 1]) + HexValue(hex[|hex| - 1])
  }

  /** `hex2dec` sums digit times power of 16 from the left.  A sum that leaves the byte is a
      conversion from `double` out of range, which is undefined, and so is the infinite power that
      more than 256 characters need. */
  method Hex2Dec(hex: string) returns (result: Byte)
    requires HexNumber(hex) < 256 && |hex| <= 256
    ensures result == HexNumber(hex)
  {
    hide HexNumber, HexValue, Pow;
    result := 0;
    NoHexDigits();
    for i := 0 to |hex|
      invariant (result as nat) == HexNumber(hex[..i]) * Pow(16, |hex| - i)
    {
      HexPrefix(hex, i);
      var sum := (result as nat) + HexValue(hex[i]) * Pow(16, |hex| - i - 1);
      HexPrefixBound(hex, i + 1);
      result := sum;
    }
    assert hex[..|hex|] == hex;
    PowNone(16);
  }

  lemma NoHexDigits()
    ensures HexNumber("") == 0
  {}

  /** One more character, seen from the whole string. */
  lemma HexPrefix(hex: string, i: nat)
    requires i < |hex|
    ensures HexNumber(hex[..i + 1]) * Pow(16, |hex| - i - 1)
         == HexNumber(hex[..i]) * Pow(16, |hex| - i) + HexValue(hex[i]) * Pow(16, |hex| - i - 1)
    ensures HexNumber(hex[..i]) * Pow(16, |hex| - i) <= HexNumber(hex[..i + 1]) * Pow(16, |hex| - i - 1)
  {
    hide HexValue;
    var p, n, v := Pow(16, |hex| - i - 1), HexNumber(hex[..i]), HexValue(hex[i]);
    assert Pow(16, |hex| - i) == 16 * p;
    assert hex[..i + 1][..i] == hex[..i];
    assert HexNumber(hex[..i + 1]) == 16 * n + v;
    hide HexNumber, Pow;
    Distribute(n, v, p);
  }

  lemma Distribute(n: nat, v: nat, p: nat)
    ensures (16 * n + v) * p == n * (16 * p) + v * p
  {}

  /** Every partial sum is at most the final one. */
  lemma {:induction false} HexPrefixBound(hex: string, i: nat)
    requires i <= |hex|
    ensures HexNumber(hex[..i]) * Pow(16, |hex| - i) <= HexNumber(hex)
    decreases |hex| - i
  {
    hide HexNumber, HexValue, Pow;
    if i == |hex| {
      assert hex[..i] == hex;
      PowNone(16);
    } else {
      HexPrefixBound(hex, i + 1);
      HexPrefix(hex, i);
    }
  }

  lemma TwoHexDigits(hex: string)
    requires |hex| <= 2
    ensures HexNumber(hex) < 256
    ensures |hex| == 2 ==> HexNumber(hex) == 16 * HexValue(hex[0]) + HexValue(hex[1])
  {
    if |hex| == 2 {
      assert hex[..1][..0] == "";
      assert HexNumber(hex[..1]) == HexValue(hex[0]);
    }
  }

  /** The bytes of a hex string, two characters at a time as `substr(i, 2)` takes them. */
  function HexBytes(hex: string): seq<Byte> {
    if hex == "" then []
    else if |hex| == 1 then TwoHexDigits(hex); [HexNumber(hex)]
    else TwoHexDigits(hex[..2]); [HexNumber(hex[..2])] + HexBytes(hex[2..])
  }

  lemma {:induction false} HexBytesAppend(s: string, t: string)
    requires |s| % 2 == 0
    ensures HexBytes(s + t) == HexBytes(s) + HexBytes(t)
    decreases |s|
  {
    if s == "" {
      assert s + t == t;
    } else {
      assert (s + t)[..2] == s[..2] && (s + t)[2..] == s[2..] + t;
      HexBytesAppend(s[2..], t);
    }
  }

  lemma {:induction false} HexBytesLength(s: string)
    ensures |HexBytes(s)| == (|s| + 1) / 2
    decreases |s|
  {
    if |s| >= 2 { HexBytesLength(s[2..]); }
  }

  // ---------------------------------------------------------------- addresses

  const PREFIX: string := "16D8EE"

  function AddressHex(first: string, second: string): string
    requires |first| >= 32 && |second| >= 8
  {
    PREFIX + (first[..32] + second[..8])
  }

  /** `pub2addr` from the two SHA-256 strings on. */
  method PubToAddr(first: string, second: string) returns (address: string)
    requires |first| == 64 && |second| == 64
    ensures HexBytes(AddressHex(first, second)) != []
    ensures address == Encoded(HexBytes(AddressHex(first, second)))
    ensures |address| == 31 && address[..3] == "UNT"
  {
    hide HexNumber, HexBytes, Encoded;
    var hex := AddressHex(first, second);
    var bytes: seq<Byte> := [];
    assert hex[0..] == hex;
    var i := 0;
    while i < |hex|
      invariant 0 <= i <= |hex| && i % 2 == 0
      invariant HexBytes(hex) == bytes + HexBytes(hex[i..])
    {
      TwoHexDigits(hex[i..i + 2]);
      NextHexByte(hex, i);
      var byte := Hex2Dec(hex[i..i + 2]);
      bytes := bytes + [byte];
      i := i + 2;
    }
    NoHexBytes();
    assert hex[i..] == "";
    assert HexBytes(hex) == bytes;
    AddressShape(first[..32], second[..8]);
    address := Encode(bytes);
  }

  lemma NextHexByte(hex: string, i: nat)
    requires i + 2 <= |hex|
    ensures HexNumber(hex[i..i + 2]) < 256
    ensures HexBytes(hex[i..]) == [HexNumber(hex[i..i + 2])] + HexBytes(hex[i + 2..])
  {
    hide HexNumber;
    TwoHexDigits(hex[i..i + 2]);
    assert hex[i..][..2] == hex[i..i + 2] && hex[i..][2..] == hex[i + 2..];
  }

  lemma NoHexBytes()
    ensures HexBytes("") == []
  {}

  // ------------------------------------------------------- the shape of addresses

  lemma {:induction false} NumberOfAppend(a: seq<Byte>, b: seq<Byte>)
    ensures NumberOf(a + b) == NumberOf(a) * Pow(256, |b|) + NumberOf(b)
    decreases |b|
  {
    if b == [] {
      assert a + b == a;
    } else {
      var n := |b| - 1;
      NumberOfAppend(a, b[..n]);
      assert (a + b)[..|a + b| - 1] == a + b[..n];
      MoveFactor(NumberOf(a), Pow(256, n), NumberOf(b[..n]));
    }
  }

  lemma MoveFactor(x: nat, p: nat, y: nat)
    ensures 256 * (x * p + y) == x * (256 * p) + 256 * y
  {}

  lemma Regroup(a: nat, b: nat, c: nat)
    ensures a * (b * c) == (a * b) * c
  {}

  lemma {:induction false} ValueSplits(d: seq<Digit>, k: nat)
    requires k <= |d|
    ensures Value(d) == Value(d[..k]) + Pow(58, k) * Value(d[k..])
    decreases |d|
  {
    if k == 0 {
      assert d[0..] == d;
    } else {
      ValueSplits(d[1..], k - 1);
      assert d[..k][1..] == d[1..][..k - 1] && d[k..] == d[1..][k - 1..];
      Regroup(58, Pow(58, k - 1), Value(d[k..]));
    }
  }

  lemma {:induction false} ValueBound(d: seq<Digit>)
    ensures Value(d) < Pow(58, |d|)
    decreases |d|
  {
    if d != [] { ValueBound(d[1..]); }
  }

  lemma {:induction false} RenderAt(d: seq<Digit>, i: nat)
    requires i < |d|
    ensures |Render(d)| == |d| && Render(d)[i] == Symbol(d[|d| - 1 - i])
    decreases |d|
  {
    hide Symbol;
    if |d| > 1 {
      RenderAt(d[1..], if i < |d| - 1 then i else 0);
    }
  }

  lemma Powers()
    ensures Pow(256, 20) == 1461501637330902918203684832716283019655932542976
    ensures Pow(58, 28) == 23767517358231570773047645414309870043308402671616
    ensures Pow(58, 30) == 3364 * Pow(58, 28) && Pow(58, 31) == 195112 * Pow(58, 28)
  {
    hide Pow;
    PowNone(256);
    EightBytes(0);
    EightBytes(8);
    PowStep(256, 16);
    PowStep(256, 17);
    PowStep(256, 18);
    PowStep(256, 19);
    PowNone(58);
    ElevenDigits(0);
    ElevenDigits(11);
    PowStep(58, 22);
    PowStep(58, 23);
    PowStep(58, 24);
    PowStep(58, 25);
    PowStep(58, 26);
    PowStep(58, 27);
    PowStep(58, 28);
    PowStep(58, 29);
    PowStep(58, 30);
  }

  lemma PowNone(b: nat)
    ensures Pow(b, 0) == 1
  {}

  lemma PowStep(b: nat, e: nat)
    ensures Pow(b, e + 1) == b * Pow(b, e)
  {}

  /** The digits of a number between 0x16D8EE and 0x16D8EF times 256^20. */
  lemma AddressDigits(d: seq<Digit>, payload: nat)
    requires Trimmed(d) && payload < Pow(256, 20)
    requires Value(d) == 0x16D8EE * Pow(256, 20) + payload
    ensures |d| == 31 && d[30] == 27 && d[29] == 21 && d[28] == 26
  {
    hide Pow, Value;
    Powers();
    ValueBound(d);
    if |d| <= 30 { PowMonotone(58, |d|, 30); }
    TopDigitBound(d);
    if |d| >= 32 { PowMonotone(58, 31, |d| - 1); }
    ValueSplits(d, 28);
    ValueBound(d[..28]);
    var top := Value(d[28..]);
    assert top == 92072;
    ThreeDigits(d[28..]);
  }

  lemma ThreeDigits(d: seq<Digit>)
    requires |d| == 3
    ensures Value(d) == (d[0] as nat) + 58 * ((d[1] as nat) + 58 * (d[2] as nat))
  {
    assert d[1..][1..] == d[2..] && d[2..][1..] == [];
    assert Value(d[2..]) == d[2];
  }

  lemma PrefixBytes()
    ensures HexBytes(PREFIX) == [0x16, 0xD8, 0xEE]
    ensures NumberOf([0x16, 0xD8, 0xEE]) == 0x16D8EE
  {
    assert PREFIX[2..][2..] == "EE" && "EE"[2..] == "";
    TwoHexDigits(PREFIX[..2]);
    TwoHexDigits(PREFIX[2..][..2]);
    TwoHexDigits("EE");
    var b: seq<Byte> := [0x16, 0xD8, 0xEE];
    assert b[..2][..1] == [0x16] && [0x16 as Byte][..0] == [];
    assert NumberOf(b[..2]) == 0x16D8;
  }

  /** Whatever the two hash fragments are, the address has 31 characters and starts with "UNT". */
  lemma AddressShape(first: string, second: string)
    requires |first| == 32 && |second| == 8
    ensures var bytes := HexBytes(PREFIX + (first + second));
      && |bytes| == 23
      && |Encoded(bytes)| == 31 && Encoded(bytes)[..3] == "UNT"
  {
    hide Digits, Value, NumberOf, Pow, Render, HexBytes, Symbol;
    var payload := HexBytes(first + second);
    var bytes := HexBytes(PREFIX + (first + second));
    HexBytesAppend(PREFIX, first + second);
    HexBytesLength(first + second);
    PrefixBytes();
    assert bytes == [0x16, 0xD8, 0xEE] + payload;
    assert LeadingZeros(bytes) == 0;
    NumberOfAppend([0x16, 0xD8, 0xEE], payload);
    NumberOfBound(payload);
    DigitsDenoteBytes(bytes);
    var d := Digits(bytes);
    AddressDigits(d, NumberOf(payload));
    RenderAt(d, 0);
    RenderAt(d, 1);
    RenderAt(d, 2);
    Unt();
    assert Repeat('1', 0) + Render(d) == Render(d);
    assert Encoded(bytes)[..3] == [Symbol(27), Symbol(21), Symbol(26)];
  }

  lemma Unt()
    ensures [Symbol(27), Symbol(21), Symbol(26)] == "UNT"
  {}

  // ------------------------------------------------- addresses are injective

  lemma {:induction false} HexBytesInjective(s: string, t: string)
    requires IsLowerHex(s) && IsLowerHex(t) && |s| == |t| && |s| % 2 == 0
    requires HexBytes(s) == HexBytes(t)
    ensures s == t
    decreases |s|
  {
    hide HexNumber;
    if s != "" {
      TwoHexDigits(s[..2]);
      TwoHexDigits(t[..2]);
      assert HexBytes(s)[0] == HexBytes(t)[0] && HexBytes(s)[1..] == HexBytes(t)[1..];
      assert s[0] == t[0] && s[1] == t[1];
      HexBytesInjective(s[2..], t[2..]);
      assert s == [s[0], s[1]] + s[2..] && t == [t[0], t[1]] + t[2..];
    }
  }

  lemma PayloadInjective(s: string, t: string)
    requires |s| == |t| == 40 && IsLowerHex(s) && IsLowerHex(t)
    requires HexBytes(PREFIX + s) != [] && HexBytes(PREFIX + t) != []
    requires Encoded(HexBytes(PREFIX + s)) == Encoded(HexBytes(PREFIX + t))
    ensures s == t
  {
    hide HexBytes, Encoded;
    EncodedInjective(HexBytes(PREFIX + s), HexBytes(PREFIX + t));
    HexBytesAppend(PREFIX, s);
    HexBytesAppend(PREFIX, t);
    var n := |HexBytes(PREFIX)|;
    assert HexBytes(s) == HexBytes(PREFIX + s)[n..] && HexBytes(t) == HexBytes(PREFIX + t)[n..];
    HexBytesInjective(s, t);
  }

  /** Two addresses agree exactly when both hash fragments agree. */
  lemma AddressInjective(first: string, second: string, first': string, second': string)
    requires |first| == |first'| == 32 && |second| == |second'| == 8
    requires IsLowerHex(first + second) && IsLowerHex(first' + second')
    ensures HexBytes(PREFIX + (first + second)) != [] && HexBytes(PREFIX + (first' + second')) != []
    ensures Encoded(HexBytes(PREFIX + (first + second))) == Encoded(HexBytes(PREFIX + (first' + second')))
       <==> first == first' && second == second'
  {
    hide HexBytes, Encoded, IsLowerHex;
    AddressShape(first, second);
    AddressShape(first', second');
    if Encoded(HexBytes(PREFIX + (first + second))) == Encoded(HexBytes(PREFIX + (first' + second'))) {
      PayloadInjective(first + second, first' + second');
      assert first == (first + second)[..32] && first' == (first' + second')[..32];
      assert second == (first + second)[32..] && second' == (first' + second')[32..];
    }
  }
}
