/** Numbers as byte strings, and byte strings as hexadecimal text. */
module ByteStrings {
  import opened HexText

  function LowByte(n: nat): bv8 {
    (n % 256) as bv8
  }

  /** The k low bytes of a number, most significant first. */
  function BigEndian(n: nat, k: nat): (b: seq<bv8>)
    ensures |b| == k
  {
    if k == 0 then [] else BigEndian(n / 256, k - 1) + [LowByte(n)]
  }

  function Zeros(n: nat): seq<bv8> {
    seq(n, _ => 0)
  }

  /** Splitting off the four low bytes. */
  lemma LowFourBytes(n: nat, k: nat)
    ensures BigEndian(n, k + 4) == BigEndian(n / 0x1_0000_0000, k) + BigEndian(n, 4)
  {
    hide LowByte;
    var n1, n2, n3 := n / 256, n / 0x1_0000, n / 0x100_0000;
    assert n1 / 256 == n2 && n2 / 256 == n3 && n3 / 256 == n / 0x1_0000_0000;
    assert BigEndian(n3, k + 1) == BigEndian(n / 0x1_0000_0000, k) + [LowByte(n3)];
    assert BigEndian(n2, k + 2) == BigEndian(n / 0x1_0000_0000, k) + [LowByte(n3), LowByte(n2)];
    assert BigEndian(n1, k + 3) == BigEndian(n / 0x1_0000_0000, k) + [LowByte(n3), LowByte(n2), LowByte(n1)];
    FourBytes(n);
  }

  lemma FourBytes(n: nat)
    ensures BigEndian(n, 4) == [LowByte(n / 0x100_0000), LowByte(n / 0x1_0000), LowByte(n / 0x100), LowByte(n)]
  {
    hide LowByte;
    var n1, n2, n3 := n / 0x100, n / 0x1_0000, n / 0x100_0000;
    assert n1 / 256 == n2 && n2 / 256 == n3;
    assert BigEndian(n3, 1) == [LowByte(n3)];
    assert BigEndian(n2, 2) == [LowByte(n3), LowByte(n2)];
  }

  /** Four bytes of a number written most significant first. */
  method PutFour(a: array<bv8>, at: nat, n: nat)
    requires at + 4 <= a.Length
    modifies a
    ensures a[..] == old(a[..at]) + BigEndian(n, 4) + old(a[at + 4..])
  {
    hide LowByte, BigEndian;
    FourBytes(n);
    a[at] := LowByte(n / 0x100_0000);
    a[at + 1] := LowByte(n / 0x1_0000);
    a[at + 2] := LowByte(n / 0x100);
    a[at + 3] := LowByte(n);
  }

  lemma LowByteZero(n: nat)
    ensures LowByte(n) == 0 <==> n % 256 == 0
  {}

  function Pow256(k: nat): nat {
    if k == 0 then 1 else 256 * Pow256(k - 1)
  }

  /** All bytes of a number that fits are zero exactly when the number is. */
  lemma {:induction false} ZeroBytes(n: nat, k: nat)
    requires n < Pow256(k)
    ensures BigEndian(n, k) == Zeros(k) <==> n == 0
    decreases k
  {
    hide LowByte;
    if k > 0 {
      ZeroBytes(n / 256, k - 1);
      LowByteZero(n);
      assert BigEndian(n, k)[..k - 1] == BigEndian(n / 256, k - 1) && Zeros(k)[..k - 1] == Zeros(k - 1);
      assert BigEndian(n, k)[k - 1] == LowByte(n) && Zeros(k)[k - 1] == 0;
      assert Zeros(k) == Zeros(k - 1) + [0];
    }
  }

  /** What lies above the low k bytes does not show. */
  lemma {:induction false} LowBytesOnly(n: nat, q: nat, k: nat)
    ensures BigEndian(n + Pow256(k) * q, k) == BigEndian(n, k)
    decreases k
  {
    hide LowByte;
    if k > 0 {
      var m := Pow256(k - 1) * q;
      PowTimes(k, q);
      hide Pow256;
      assert (n + 256 * m) / 256 == n / 256 + m;
      LowBytesOnly(n / 256, q, k - 1);
      SameLowByte(n, m);
    }
  }

  lemma PowTimes(k: nat, q: nat)
    requires k > 0
    ensures Pow256(k) * q == 256 * (Pow256(k - 1) * q)
  {}

  lemma SameLowByte(n: nat, m: nat)
    ensures LowByte(n + 256 * m) == LowByte(n)
  {
    hide LowByte;
    assert (n + 256 * m) % 256 == n % 256;
    LowByteOf(n + 256 * m, n % 256);
    LowByteOf(n, n % 256);
  }

  lemma LowByteOf(n: nat, r: nat)
    requires n % 256 == r
    ensures LowByte(n) == r as bv8
  {}

  // -------------------------------------------------------------------- hex

  function HexDigit(x: bv8): char {
    match x & 15
    case 0 => '0' case 1 => '1' case 2 => '2' case 3 => '3' case 4 => '4' case 5 => '5' case 6 => '6' case 7 => '7'
    case 8 => '8' case 9 => '9' case 10 => 'a' case 11 => 'b' case 12 => 'c' case 13 => 'd' case 14 => 'e'
    case _ => 'f'
  }

  function HexByte(x: bv8): string {
    [HexDigit(x >> 4), HexDigit(x)]
  }

  function Hex(bytes: seq<bv8>): string {
    if bytes == [] then "" else Hex(bytes[..|bytes| - 1]) + HexByte(bytes[|bytes| - 1])
  }

  lemma {:induction false} HexShape(bytes: seq<bv8>)
    ensures |Hex(bytes)| == 2 * |bytes| && IsLowerHex(Hex(bytes))
  {
    hide HexByte;
    if bytes != [] {
      HexShape(bytes[..|bytes| - 1]);
      HexByteShape(bytes[|bytes| - 1]);
    }
  }

  lemma HexByteShape(x: bv8)
    ensures |HexByte(x)| == 2 && IsLowerHex(HexByte(x))
  {
    hide HexDigit;
    HexDigitShape(x >> 4);
    HexDigitShape(x);
  }

  lemma HexDigitShape(x: bv8)
    ensures '0' <= HexDigit(x) <= '9' || 'a' <= HexDigit(x) <= 'f'
  {}

  lemma HexAppend(bytes: seq<bv8>, x: bv8)
    ensures Hex(bytes + [x]) == Hex(bytes) + HexByte(x)
  {
    hide HexByte;
    assert (bytes + [x])[..|bytes|] == bytes;
  }

  /** The hex conversion loop that the hash classes share. */
  method ToHex(raw: seq<bv8>) returns (result: string)
    ensures result == Hex(raw)
  {
    hide HexByte, Hex;
    result := "";
    assert Hex([]) == "" by { NoHex(); }
    assert raw[..0] == [];
    for i := 0 to |raw|
      invariant result == Hex(raw[..i])
    {
      HexAppend(raw[..i], raw[i]);
      assert raw[..i + 1] == raw[..i] + [raw[i]];
      result := result + HexByte(raw[i]);
    }
    assert raw[..|raw|] == raw;
  }

  lemma NoHex()
    ensures Hex([]) == ""
  {}

  /** Different bytes have different hexadecimal forms. */
  lemma {:induction false} HexInjective(a: seq<bv8>, b: seq<bv8>)
    requires Hex(a) == Hex(b)
    ensures a == b
    decreases |a|
  {
    hide HexByte, Hex, IsLowerHex;
    HexShape(a);
    HexShape(b);
    if a != [] {
      var n := |a| - 1;
      HexLast(a);
      HexLast(b);
      HexShape(a[..n]);
      HexShape(b[..n]);
      SameEnds(Hex(a[..n]), HexByte(a[n]), Hex(b[..n]), HexByte(b[n]));
      HexInjective(a[..n], b[..n]);
      HexByteInjective(a[n], b[n]);
      assert a == a[..n] + [a[n]] && b == b[..n] + [b[n]];
    }
  }

  lemma SameEnds<T>(s: seq<T>, u: seq<T>, t: seq<T>, v: seq<T>)
    requires |s| == |t| && s + u == t + v
    ensures s == t && u == v
  {
    assert s == (s + u)[..|s|] && t == (t + v)[..|s|] && u == (s + u)[|s|..] && v == (t + v)[|s|..];
  }

  lemma HexLast(a: seq<bv8>)
    requires a != []
    ensures Hex(a) == Hex(a[..|a| - 1]) + HexByte(a[|a| - 1])
  {}

  lemma HexByteInjective(x: bv8, y: bv8)
    requires HexByte(x) == HexByte(y)
    ensures x == y
  {
    hide HexDigit;
    HexDigitInjective(x >> 4, y >> 4);
    HexDigitInjective(x, y);
    Nibbles(x, y);
  }

  lemma HexDigitInjective(x: bv8, y: bv8)
    requires HexDigit(x) == HexDigit(y)
    ensures x & 15 == y & 15
  {}

  lemma Nibbles(x: bv8, y: bv8)
    requires x & 15 == y & 15 && (x >> 4) & 15 == (y >> 4) & 15
    ensures x == y
  {}

  // ------------------------------------------------------------------ characters

  /** The byte of a hexadecimal character; others do not occur in hexadecimal text. */
  function AsciiByte(c: char): bv8 {
    match c
    case '0' => 0x30 case '1' => 0x31 case '2' => 0x32 case '3' => 0x33 case '4' => 0x34 case '5' => 0x35
    case '6' => 0x36 case '7' => 0x37 case '8' => 0x38 case '9' => 0x39 case 'a' => 0x61 case 'b' => 0x62
    case 'c' => 0x63 case 'd' => 0x64 case 'e' => 0x65 case 'f' => 0x66 case _ => 0
  }

  /** Hexadecimal text as the bytes of its characters. */
  function Ascii(s: string): seq<bv8> {
    seq(|s|, i requires 0 <= i < |s| => AsciiByte(s[i]))
  }

  lemma AsciiLength(s: string)
    ensures |Ascii(s)| == |s|
  {}

  lemma AsciiInjective(s: string, t: string)
    requires IsLowerHex(s) && IsLowerHex(t) && Ascii(s) == Ascii(t)
    ensures s == t
  {
    hide AsciiByte;
    AsciiLength(s);
    AsciiLength(t);
    forall i | 0 <= i < |s| ensures s[i] == t[i] {
      assert AsciiByte(s[i]) == Ascii(s)[i] && AsciiByte(t[i]) == Ascii(t)[i];
      AsciiByteInjective(s[i], t[i]);
    }
  }

  lemma AsciiByteInjective(c: char, d: char)
    requires '0' <= c <= '9' || 'a' <= c <= 'f'
    requires '0' <= d <= '9' || 'a' <= d <= 'f'
    requires AsciiByte(c) == AsciiByte(d)
    ensures c == d
  {
    hide AsciiByte;
    AsciiByteIsCode(c);
    AsciiByteIsCode(d);
  }

  /** The byte of a hexadecimal character is its code. */
  lemma AsciiByteIsCode(c: char)
    requires '0' <= c <= '9' || 'a' <= c <= 'f'
    ensures AsciiByte(c) as int == c as int
  {}
}
