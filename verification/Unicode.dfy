/** Wide strings to UTF-8, and the check of UTF-8, of gtest-all.cc, against RFC 3629 and
    RFC 2781.  A bit pattern is the number it stands for: its lowest n bits are the remainder
    by 2^n, a shift right the quotient, and an `or` of disjoint bits the sum. */
module Unicode {

  type Byte = b: int | 0 <= b < 0x100
  type UInt32 = u: int | 0 <= u < 0x1_0000_0000

  const MAX_CODE_POINT_1 := 0x7F
  const MAX_CODE_POINT_2 := 0x7FF
  const MAX_CODE_POINT_3 := 0xFFFF
  const MAX_CODE_POINT_4 := 0x1FFFFF

  // ---------------------------------------------------------------- UTF-8 by the RFC

  /** A Unicode scalar value. */
  predicate Scalar(c: UInt32) {
    c <= 0x10FFFF && !(0xD800 <= c <= 0xDFFF)
  }

  predicate Scalars(cs: seq<UInt32>) {
    forall k :: 0 <= k < |cs| ==> Scalar(cs[k])
  }

  /** The octets of a code point, section 3 of RFC 3629 (for up to 21 bits). */
  function Encoding(c: UInt32): (e: seq<Byte>)
    requires c <= MAX_CODE_POINT_4
    ensures 1 <= |e| <= 4
  {
    if c <= MAX_CODE_POINT_1 then [c]
    else if c <= MAX_CODE_POINT_2 then [0xC0 + High(c), Tail(c)]
    else if c <= MAX_CODE_POINT_3 then [0xE0 + High(High(c)), Tail(High(c)), Tail(c)]
    else [0xF0 + High(High(High(c))), Tail(High(High(c))), Tail(High(c)), Tail(c)]
  }

  /** All but the lowest six bits. */
  function High(bits: UInt32): UInt32 {
    bits / 0x40
  }

  /** The lowest six bits, as a UTF8-tail. */
  function Tail(bits: UInt32): Byte {
    0x80 + bits % 0x40
  }

  predicate Utf8Tail(b: Byte) {
    0x80 <= b <= 0xBF
  }

  /** UTF8-char of section 4 of RFC 3629. */
  predicate Utf8Char(e: seq<Byte>) {
    || (|e| == 1 && e[0] <= 0x7F)
    || (|e| == 2 && 0xC2 <= e[0] <= 0xDF && Utf8Tail(e[1]))
    || (|e| == 3 && Utf8Tail(e[2]) &&
        (|| (e[0] == 0xE0 && 0xA0 <= e[1] <= 0xBF)
         || (0xE1 <= e[0] <= 0xEC && Utf8Tail(e[1]))
         || (e[0] == 0xED && 0x80 <= e[1] <= 0x9F)
         || (0xEE <= e[0] <= 0xEF && Utf8Tail(e[1]))))
    || (|e| == 4 && Utf8Tail(e[2]) && Utf8Tail(e[3]) &&
        (|| (e[0] == 0xF0 && 0x90 <= e[1] <= 0xBF)
         || (0xF1 <= e[0] <= 0xF3 && Utf8Tail(e[1]))
         || (e[0] == 0xF4 && 0x80 <= e[1] <= 0x8F)))
  }

  function Decoded2(e: seq<Byte>): (c: UInt32)
    requires Utf8Char(e) && |e| == 2
    ensures Scalar(c) && Encoding(c) == e
  {
    Joined(e[0] - 0xC0, e[1])
  }

  function Decoded3(e: seq<Byte>): (c: UInt32)
    requires Utf8Char(e) && |e| == 3
    ensures Scalar(c) && Encoding(c) == e
  {
    var h := Joined(e[0] - 0xE0, e[1]);
    var c := Joined(h, e[2]);
    assert 0x800 <= c <= 0xFFFF && (c < 0xD800 || 0xE000 <= c);
    assert [0xE0 + High(High(c)), Tail(High(c)), Tail(c)] == e;
    c
  }

  function Decoded4(e: seq<Byte>): (c: UInt32)
    requires Utf8Char(e) && |e| == 4
    ensures Scalar(c) && Encoding(c) == e
  {
    var h := Joined(Joined(e[0] - 0xF0, e[1]), e[2]);
    var c := Joined(h, e[3]);
    assert 0x10000 <= c <= 0x10FFFF;
    assert [0xF0 + High(High(High(c))), Tail(High(High(c))), Tail(High(c)), Tail(c)] == e;
    c
  }

  /** The scalar value that the octets of a character encode. */
  function Decoded(e: seq<Byte>): (c: UInt32)
    requires Utf8Char(e)
    ensures Scalar(c) && Encoding(c) == e
  {
    if |e| == 1 then e[0] else if |e| == 2 then Decoded2(e) else if |e| == 3 then Decoded3(e) else Decoded4(e)
  }

  function Joined(high: UInt32, tail: Byte): (c: UInt32)
    requires high <= 0xFFFF && Utf8Tail(tail)
    ensures High(c) == high && Tail(c) == tail && high * 0x40 <= c < high * 0x40 + 0x40
    ensures forall d: UInt32 :: High(d) == high && Tail(d) == tail ==> d == c
  {
    var h: int := high;
    h * 0x40 + tail - 0x80
  }

  /** How many octets follow from the first. */
  function Size(lead: Byte): nat {
    if lead <= 0x7F then 1 else if lead <= 0xDF then 2 else if lead <= 0xEF then 3 else 4
  }

  lemma {:induction false} EncodingIsChar(c: UInt32)
    requires c <= MAX_CODE_POINT_4
    ensures Utf8Char(Encoding(c)) <==> Scalar(c)
    ensures |Encoding(c)| == Size(Encoding(c)[0])
  {
  }

  lemma {:induction false} EncodingDecodes(c: UInt32)
    requires Scalar(c) && Utf8Char(Encoding(c))
    ensures Decoded(Encoding(c)) == c
  {
  }

  function Utf8(cs: seq<UInt32>): seq<Byte>
    requires forall k :: 0 <= k < |cs| ==> cs[k] <= MAX_CODE_POINT_4
  {
    if cs == [] then [] else Encoding(cs[0]) + Utf8(cs[1..])
  }

  /** UTF8-octets of section 4 of RFC 3629: any number of characters. */
  ghost predicate Utf8Octets(s: seq<Byte>)
    decreases |s|
  {
    s == [] || exists n :: 1 <= n <= |s| && Utf8Char(s[..n]) && Utf8Octets(s[n..])
  }

  lemma {:induction false} FirstChar(s: seq<Byte>, n: nat)
    requires s != [] && n == Size(s[0])
    ensures Utf8Octets(s) <==> n <= |s| && Utf8Char(s[..n]) && Utf8Octets(s[n..])
  {
    forall m | 1 <= m <= |s| && Utf8Char(s[..m]) ensures m == n {
      assert s[..m][0] == s[0] && |s[..m]| == m;
    }
  }

  lemma {:induction false} FirstEncoding(c: UInt32, rest: seq<Byte>)
    requires c <= MAX_CODE_POINT_4
    ensures Utf8Octets(Encoding(c) + rest) <==> Scalar(c) && Utf8Octets(rest)
  {
    var e := Encoding(c);
    EncodingIsChar(c);
    assert (e + rest)[..|e|] == e && (e + rest)[|e|..] == rest;
    FirstChar(e + rest, |e|);
  }

  /** The grammar of section 4 gives exactly the encodings of strings of scalar values. */
  lemma {:induction false} OctetsIffEncoding(s: seq<Byte>)
    ensures Utf8Octets(s) <==> exists cs :: Scalars(cs) && s == Utf8(cs)
  {
    if Utf8Octets(s) {
      var cs := AllDecoded(s);
      assert Scalars(cs) && s == Utf8(cs);
    }
    if cs :| Scalars(cs) && s == Utf8(cs) {
      EncodingsAreOctets(cs);
    }
  }

  ghost function AllDecoded(s: seq<Byte>): (cs: seq<UInt32>)
    requires Utf8Octets(s)
    ensures Scalars(cs) && s == Utf8(cs)
    decreases |s|
  {
    if s == [] then []
    else
      FirstChar(s, Size(s[0]));
      var n := Size(s[0]);
      var c := Decoded(s[..n]);
      var rest := AllDecoded(s[n..]);
      Utf8First(c, rest);
      Halves(s, n);
      [c] + rest
  }

  lemma {:induction false} Halves(s: seq<Byte>, n: nat)
    requires n <= |s|
    ensures s == s[..n] + s[n..]
  {
  }

  lemma {:induction false} Utf8First(c: UInt32, cs: seq<UInt32>)
    requires Scalar(c) && Scalars(cs)
    ensures Scalars([c] + cs) && Utf8([c] + cs) == Encoding(c) + Utf8(cs)
  {
    assert ([c] + cs)[1..] == cs;
  }

  lemma {:induction false} EncodingsAreOctets(cs: seq<UInt32>)
    requires Scalars(cs)
    ensures Utf8Octets(Utf8(cs))
    decreases |cs|
  {
    if cs != [] {
      EncodingsAreOctets(cs[1..]);
      FirstEncoding(cs[0], Utf8(cs[1..]));
    }
  }

  /** A string of octets encodes at most one string of scalar values. */
  lemma {:induction false} Utf8Injective(cs: seq<UInt32>, ds: seq<UInt32>)
    requires Scalars(cs) && Scalars(ds) && Utf8(cs) == Utf8(ds)
    ensures cs == ds
    decreases |cs|
  {
    if cs != [] && ds != [] {
      var e, f := Encoding(cs[0]), Encoding(ds[0]);
      EncodingIsChar(cs[0]);
      EncodingIsChar(ds[0]);
      assert Utf8(cs)[0] == e[0] && Utf8(ds)[0] == f[0];
      assert e == Utf8(cs)[..|e|] && f == Utf8(ds)[..|f|];
      assert Utf8(cs[1..]) == Utf8(cs)[|e|..] && Utf8(ds[1..]) == Utf8(ds)[|f|..];
      EncodingDecodes(cs[0]);
      EncodingDecodes(ds[0]);
      Utf8Injective(cs[1..], ds[1..]);
      assert cs == [cs[0]] + cs[1..] && ds == [ds[0]] + ds[1..];
    }
  }

  predicate IsUTF8TrailByte(t: Byte) {
    0x80 <= t && t <= 0xBF
  }

  /** The check accepts exactly the octets of section 4, whatever the bytes. */
  method IsValidUTF8(s: seq<Byte>) returns (valid: bool)
    ensures valid <==> Utf8Octets(s)
  {
    var i := 0;
    while i < |s|
      invariant 0 <= i <= |s|
      invariant Utf8Octets(s) <==> Utf8Octets(s[i..])
    {
      var lead := s[i];
      ghost var at := s[i..];
      ghost var n := Size(lead);
      FirstChar(at, n);
      assert n <= |at| ==> at[n..] == s[i + n..];
      assert forall k :: 0 <= k < n && n <= |at| ==> at[..n][k] == s[i + k];
      i := i + 1;
      if lead <= 0x7F {
        continue;
      }
      if lead < 0xC2 {
        return false;
      } else if lead <= 0xDF && i + 1 <= |s| && IsUTF8TrailByte(s[i]) {
        i := i + 1;
      } else if 0xE0 <= lead && lead <= 0xEF && i + 2 <= |s| && IsUTF8TrailByte(s[i]) && IsUTF8TrailByte(s[i + 1])
          && (lead != 0xE0 || s[i] >= 0xA0) && (lead != 0xED || s[i] < 0xA0) {
        i := i + 2;
      } else if 0xF0 <= lead && lead <= 0xF4 && i + 3 <= |s|
          && IsUTF8TrailByte(s[i]) && IsUTF8TrailByte(s[i + 1]) && IsUTF8TrailByte(s[i + 2])
          && (lead != 0xF0 || s[i] >= 0x90) && (lead != 0xF4 || s[i] < 0x90) {
        i := i + 3;
      } else {
        return false;
      }
    }
    return true;
  }

  // ---------------------------------------------------------------- one code point

  /** Hexadecimal in capitals, without leading zeros. */
  function Hex(v: UInt32): (r: seq<Byte>)
    ensures forall k :: 0 <= k < |r| ==> 0x30 <= r[k] <= 0x46
  {
    if v < 0x10 then [HexDigit(v)] else Hex(v / 0x10) + [HexDigit(v % 0x10)]
  }

  function HexDigit(d: int): (r: Byte)
    requires 0 <= d < 0x10
    ensures 0x30 <= r <= 0x46
  {
    if d < 10 then 0x30 + d else 0x41 + d - 10
  }

  predicate IsHexDigit(b: Byte) {
    0x30 <= b <= 0x39 || 0x41 <= b <= 0x46
  }

  /** The number that hexadecimal digits in capitals stand for. */
  function ReadHex(s: seq<Byte>): int
    requires forall k :: 0 <= k < |s| ==> IsHexDigit(s[k])
    decreases |s|
  {
    if s == [] then 0
    else
      var last: int := s[|s| - 1];
      0x10 * ReadHex(s[..|s| - 1]) + (if last <= 0x39 then last - 0x30 else last - 0x41 + 10)
  }

  /** The number in the message is the code point, without leading zeros. */
  lemma {:induction false} HexReads(v: UInt32)
    ensures forall k :: 0 <= k < |Hex(v)| ==> IsHexDigit(Hex(v)[k])
    ensures ReadHex(Hex(v)) == v
    ensures Hex(v) != [] && (v > 0 ==> Hex(v)[0] != 0x30)
  {
    var last := HexDigit(v % 0x10);
    if v < 0x10 {
      assert [last][..0] == [];
    } else {
      HexReads(v / 0x10);
      assert (Hex(v / 0x10) + [last])[..|Hex(v / 0x10)|] == Hex(v / 0x10);
    }
  }

  predicate Ascii(s: seq<Byte>) {
    forall k :: 0 <= k < |s| ==> 0 < s[k] < 0x80
  }

  function Bytes(s: string): (r: seq<Byte>)
    requires forall k :: 0 <= k < |s| ==> 0 < s[k] as int < 0x80
    ensures Ascii(r)
  {
    seq(|s|, i requires 0 <= i < |s| => s[i] as int)
  }

  function InvalidUnicode(c: UInt32): (r: seq<Byte>)
    ensures Ascii(r)
  {
    Bytes("(Invalid Unicode 0x") + Hex(c) + Bytes(")")
  }

  /** The bytes for one code point.  The result is built from a C string: U+0000 gives none. */
  function Narrow(c: UInt32): seq<Byte> {
    if c > MAX_CODE_POINT_4 then InvalidUnicode(c)
    else if c == 0 then []
    else Encoding(c)
  }

  function Power2(n: nat): nat {
    if n == 0 then 1 else 2 * Power2(n - 1)
  }

  method ChopLowBits(bits: UInt32, n: nat) returns (lowBits: UInt32, rest: UInt32)
    requires n == 6
    ensures lowBits == bits % 0x40 && rest == bits / 0x40
  {
    assert Power2(6) == 0x40;
    lowBits, rest := bits % Power2(n), bits / Power2(n);
  }

  /** What a C string holds: up to the first NUL. */
  function CString(s: seq<Byte>): seq<Byte> {
    if s == [] || s[0] == 0 then [] else [s[0]] + CString(s[1..])
  }

  lemma {:induction false} CStringStops(s: seq<Byte>, n: nat)
    requires n < |s| && s[n] == 0 && forall k :: 0 <= k < n ==> s[k] != 0
    ensures CString(s) == s[..n]
    decreases n
  {
    if n > 0 {
      assert s[1..][n - 1] == s[n];
      CStringStops(s[1..], n - 1);
      assert s[..n] == [s[0]] + s[1..][..n - 1];
    }
  }

  method CodePointToUtf8(codePoint: UInt32) returns (r: seq<Byte>)
    ensures r == Narrow(codePoint)
  {
    if codePoint > MAX_CODE_POINT_4 {
      return InvalidUnicode(codePoint);
    }
    var str := new Byte[5];
    var bits, low := codePoint, 0;
    if codePoint <= MAX_CODE_POINT_1 {
      str[1] := 0;
      str[0] := bits;
    } else if codePoint <= MAX_CODE_POINT_2 {
      str[2] := 0;
      low, bits := ChopLowBits(bits, 6);
      str[1] := 0x80 + low;
      str[0] := 0xC0 + bits;
    } else if codePoint <= MAX_CODE_POINT_3 {
      str[3] := 0;
      low, bits := ChopLowBits(bits, 6);
      str[2] := 0x80 + low;
      low, bits := ChopLowBits(bits, 6);
      str[1] := 0x80 + low;
      str[0] := 0xE0 + bits;
    } else {
      str[4] := 0;
      low, bits := ChopLowBits(bits, 6);
      str[3] := 0x80 + low;
      low, bits := ChopLowBits(bits, 6);
      str[2] := 0x80 + low;
      low, bits := ChopLowBits(bits, 6);
      str[1] := 0x80 + low;
      str[0] := 0xF0 + bits;
    }
    ghost var n := if codePoint == 0 then 0 else |Encoding(codePoint)|;
    CStringStops(str[..], n);
    assert str[..][..n] == Narrow(codePoint);
    return CString(str[..]);
  }

  // ---------------------------------------------------------------- wide strings

  /** A wide character has 2 bytes (UTF-16) or 4 (UTF-32). */
  type WCharSize = n: int | n == 2 || n == 4 witness 2

  predicate IsUtf16SurrogatePair(first: UInt32, second: UInt32, size: WCharSize) {
    size == 2 && first - first % 0x400 == 0xD800 && second - second % 0x400 == 0xDC00
  }

  function CreateCodePointFromUtf16SurrogatePair(first: UInt32, second: UInt32, size: WCharSize): UInt32 {
    if size == 2 then first % 0x400 * 0x400 + second % 0x400 + 0x10000 else first
  }

  /** The code points of the characters of a wide string from the i-th on, before the n-th and
      before the first NUL: pairs of surrogates are joined. */
  function CodePoints(str: seq<UInt32>, i: nat, n: int, size: WCharSize): seq<UInt32>
    decreases |str| - i
  {
    if i >= n || i >= |str| || str[i] == 0 then []
    else if i + 1 < n && i + 1 < |str| && IsUtf16SurrogatePair(str[i], str[i + 1], size) then
      [CreateCodePointFromUtf16SurrogatePair(str[i], str[i + 1], size)] + CodePoints(str, i + 2, n, size)
    else [str[i]] + CodePoints(str, i + 1, n, size)
  }

  function Narrowed(cs: seq<UInt32>): seq<Byte> {
    if cs == [] then [] else Narrow(cs[0]) + Narrowed(cs[1..])
  }

  lemma {:induction false} NarrowedNext(r: seq<Byte>, c: UInt32, cs: seq<UInt32>)
    ensures r + Narrowed([c] + cs) == r + Narrow(c) + Narrowed(cs)
  {
    assert ([c] + cs)[1..] == cs;
  }

  /** Where the first NUL is, from i on. */
  function FirstNul(str: seq<UInt32>, i: nat): (z: nat)
    requires i <= |str|
    ensures i <= z <= |str| && (forall k :: i <= k < z ==> str[k] != 0) && (z < |str| ==> str[z] == 0)
    decreases |str| - i
  {
    if i == |str| || str[i] == 0 then i else FirstNul(str, i + 1)
  }

  /** One turn of the loop before the NUL at z: the next code point and where it ends. */
  lemma {:induction false} Turn(r: seq<Byte>, str: seq<UInt32>, i: nat, n: int, size: WCharSize, c: UInt32, j: nat,
                                z: nat)
    requires i < n && i <= z < |str| && str[z] == 0 && str[i] != 0
    requires if i + 1 < n && IsUtf16SurrogatePair(str[i], str[i + 1], size)
             then c == CreateCodePointFromUtf16SurrogatePair(str[i], str[i + 1], size) && j == i + 2
             else c == str[i] && j == i + 1
    ensures j <= z
    ensures r + Narrowed(CodePoints(str, i, n, size)) == r + Narrow(c) + Narrowed(CodePoints(str, j, n, size))
  {
    NarrowedNext(r, c, CodePoints(str, j, n, size));
  }

  /** Until the NUL, and as long as the characters last, str[i] is there to be read. */
  method WideStringToUtf8(str: seq<UInt32>, numChars: int, size: WCharSize) returns (r: seq<Byte>)
    requires 0 in str
    ensures r == Narrowed(CodePoints(str, 0, if numChars == -1 then FirstNul(str, 0) else numChars, size))
  {
    var n := numChars;
    if numChars == -1 {
      n := Wcslen(str);
    }
    var stream: seq<Byte> := [];
    var i := 0;
    ghost var goal := Narrowed(CodePoints(str, 0, n, size));
    ghost var z: nat :| z < |str| && str[z] == 0;
    while i < n
      invariant 0 <= i <= z
      invariant goal == stream + Narrowed(CodePoints(str, i, n, size))
    {
      var unicodeCodePoint: UInt32;
      ghost var start := i;
      if str[i] == 0 {
        break;
      }
      assert i != z;
      if i + 1 < n && IsUtf16SurrogatePair(str[i], str[i + 1], size) {
        unicodeCodePoint := CreateCodePointFromUtf16SurrogatePair(str[i], str[i + 1], size);
        i := i + 1;
      } else {
        unicodeCodePoint := str[i];
      }
      var bytes := CodePointToUtf8(unicodeCodePoint);
      i := i + 1;
      Turn(stream, str, start, n, size, unicodeCodePoint, i, z);
      stream := stream + bytes;
    }
    NoNulWritten(CodePoints(str, 0, n, size));
    NulsShownSame(stream);
    r := StringStreamToString(stream);
  }

  /** A NUL becomes a backslash and a 0. */
  function NulsShown(s: seq<Byte>): seq<Byte> {
    if s == [] then [] else NulsShown(s[..|s| - 1]) + if s[|s| - 1] == 0 then [0x5C, 0x30] else [s[|s| - 1]]
  }

  lemma {:induction false} NulsShownSame(s: seq<Byte>)
    ensures NulsShown(s) == s <==> 0 !in s
    ensures |NulsShown(s)| >= |s| && 0 !in NulsShown(s)
  {
    if s != [] {
      assert s == s[..|s| - 1] + [s[|s| - 1]];
      NulsShownSame(s[..|s| - 1]);
    }
  }

  method StringStreamToString(str: seq<Byte>) returns (result: seq<Byte>)
    ensures result == NulsShown(str)
  {
    result := [];
    for i := 0 to |str|
      invariant result == NulsShown(str[..i])
    {
      assert str[..i + 1][..i] == str[..i];
      result := result + if str[i] == 0 then [0x5C, 0x30] else [str[i]];
    }
    assert str[..|str|] == str;
  }

  lemma {:induction false} NoNulWritten(cs: seq<UInt32>)
    ensures 0 !in Narrowed(cs)
    decreases |cs|
  {
    if cs != [] {
      NoNulWritten(cs[1..]);
    }
  }

  method Wcslen(str: seq<UInt32>) returns (n: nat)
    requires 0 in str
    ensures n == FirstNul(str, 0)
  {
    n := 0;
    while str[n] != 0
      invariant 0 <= n < |str| && FirstNul(str, n) == FirstNul(str, 0)
      decreases |str| - n
    {
      n := n + 1;
    }
  }

  // ---------------------------------------------------------------- what is accepted

  /** The code points whose bytes are UTF-8: the scalar values, and those so large that the
      message is written instead. */
  predicate Shown(c: UInt32) {
    Scalar(c) || c > MAX_CODE_POINT_4
  }

  predicate AllShown(cs: seq<UInt32>) {
    forall k :: 0 <= k < |cs| ==> Shown(cs[k])
  }

  lemma {:induction false} AsciiFirst(a: seq<Byte>, rest: seq<Byte>)
    requires Ascii(a)
    ensures Utf8Octets(a + rest) <==> Utf8Octets(rest)
    decreases |a|
  {
    if a == [] {
      assert a + rest == rest;
    } else {
      assert a + rest == Encoding(a[0]) + (a[1..] + rest);
      FirstEncoding(a[0], a[1..] + rest);
      AsciiFirst(a[1..], rest);
    }
  }

  /** IsValidUTF8 accepts the converted string exactly when each of its code points is shown. */
  lemma {:induction false} ValidIffAllShown(cs: seq<UInt32>)
    ensures Utf8Octets(Narrowed(cs)) <==> AllShown(cs)
    decreases |cs|
  {
    if cs != [] {
      var c, rest := cs[0], Narrowed(cs[1..]);
      ValidIffAllShown(cs[1..]);
      assert AllShown(cs) <==> Shown(c) && AllShown(cs[1..]);
      if c > MAX_CODE_POINT_4 {
        AsciiFirst(InvalidUnicode(c), rest);
      } else if c == 0 {
        assert Narrowed(cs) == rest;
      } else {
        FirstEncoding(c, rest);
      }
    }
  }

  /** The documentation has the message written for every value beyond U+10FFFF; that is what
      is written exactly outside U+110000..U+1FFFFF. */
  lemma {:induction false} MessageAsDocumented(c: UInt32)
    requires c > 0x10FFFF
    ensures Narrow(c) == InvalidUnicode(c) <==> c > 0x1FFFFF
    ensures Utf8Octets(Narrow(c)) <==> c > 0x1FFFFF
  {
    ValidIffAllShown([c]);
    assert Narrowed([c]) == Narrow(c) + Narrowed([]) == Narrow(c);
    assert AllShown([c]) <==> Shown([c][0]);
    assert |InvalidUnicode(c)| >= 5;
  }

  // ---------------------------------------------------------------- UTF-16 by the RFC

  /** The 16-bit integers of a scalar value, section 2.1 of RFC 2781. */
  function Utf16Char(c: UInt32): seq<UInt32>
    requires Scalar(c)
  {
    if c < 0x10000 then [c] else [0xD800 + (c - 0x10000) / 0x400, 0xDC00 + (c - 0x10000) % 0x400]
  }

  function Utf16(cs: seq<UInt32>): seq<UInt32>
    requires Scalars(cs)
  {
    if cs == [] then [] else Utf16Char(cs[0]) + Utf16(cs[1..])
  }

  lemma {:induction false} PairsJoin(c: UInt32)
    requires 0x10000 <= c <= 0x10FFFF
    ensures IsUtf16SurrogatePair(Utf16Char(c)[0], Utf16Char(c)[1], 2)
    ensures CreateCodePointFromUtf16SurrogatePair(Utf16Char(c)[0], Utf16Char(c)[1], 2) == c
  {
  }

  lemma {:induction false} PairsSplit(first: UInt32, second: UInt32)
    requires IsUtf16SurrogatePair(first, second, 2)
    ensures var c := CreateCodePointFromUtf16SurrogatePair(first, second, 2);
      0x10000 <= c <= 0x10FFFF && Utf16Char(c) == [first, second]
  {
  }

  lemma {:induction false} Utf16Decodes(w: seq<UInt32>, i: nat, cs: seq<UInt32>)
    requires i <= |w| && 0 !in w && Scalars(cs) && w[i..] == Utf16(cs)
    ensures CodePoints(w + [0], i, |w|, 2) == cs
    decreases |cs|
  {
    if cs != [] {
      var e, rest := Utf16Char(cs[0]), Utf16(cs[1..]);
      var n := |e|;
      assert w[i..][..n] == e && w[i..][n..] == rest;
      assert w[i + n..] == rest && w[i] == e[0] && (n == 2 ==> w[i + 1] == e[1]);
      Utf16Decodes(w, i + n, cs[1..]);
      assert cs == [cs[0]] + cs[1..];
      if cs[0] >= 0x10000 {
        PairsJoin(cs[0]);
      } else {
        NotFirstOfPair(cs[0]);
      }
    }
  }

  lemma {:induction false} NotFirstOfPair(c: UInt32)
    requires Scalar(c)
    ensures forall d :: !IsUtf16SurrogatePair(c, d, 2)
  {
  }

  lemma {:induction false} Utf16Encodes(w: seq<UInt32>, i: nat)
    requires i <= |w| && 0 !in w && Scalars(CodePoints(w + [0], i, |w|, 2))
    requires forall k :: 0 <= k < |w| ==> w[k] <= 0xFFFF
    ensures w[i..] == Utf16(CodePoints(w + [0], i, |w|, 2))
    decreases |w| - i
  {
    if i < |w| {
      var cs := CodePoints(w + [0], i, |w|, 2);
      var n := Used(w, i);
      assert cs[1..] == CodePoints(w + [0], i + n, |w|, 2);
      assert Scalar(cs[0]) && Scalars(cs[1..]);
      Utf16Encodes(w, i + n);
      if n == 2 {
        PairsSplit(w[i], w[i + 1]);
        assert w[i..] == [w[i], w[i + 1]] + w[i + 2..];
      } else {
        assert w[i..] == [w[i]] + w[i + 1..];
      }
    }
  }

  /** How many characters of a NUL-terminated string make its next code point. */
  function Used(w: seq<UInt32>, i: nat): (n: nat)
    requires i < |w| && 0 !in w
    ensures i + n <= |w|
    ensures var cs := CodePoints(w + [0], i, |w|, 2);
      && cs != [] && cs[0] != 0 && cs[1..] == CodePoints(w + [0], i + n, |w|, 2)
      && cs[0] == if n == 2 then CreateCodePointFromUtf16SurrogatePair(w[i], w[i + 1], 2) else w[i]
    ensures n == if i + 1 < |w| && IsUtf16SurrogatePair(w[i], w[i + 1], 2) then 2 else 1
  {
    assert (w + [0])[i] == w[i] && (i + 1 < |w| ==> (w + [0])[i + 1] == w[i + 1]);
    if i + 1 < |w| && IsUtf16SurrogatePair(w[i], w[i + 1], 2) then 2 else 1
  }

  lemma {:induction false} NarrowedIsUtf8(cs: seq<UInt32>)
    requires Scalars(cs) && 0 !in cs
    ensures Narrowed(cs) == Utf8(cs)
    decreases |cs|
  {
    if cs != [] {
      NarrowedIsUtf8(cs[1..]);
    }
  }

  lemma {:induction false} NoNulAppears(w: seq<UInt32>, i: nat)
    requires i <= |w| && 0 !in w
    ensures 0 !in CodePoints(w + [0], i, |w|, 2)
    decreases |w| - i
  {
    if i < |w| {
      var cs := CodePoints(w + [0], i, |w|, 2);
      NoNulAppears(w, i + Used(w, i));
      assert cs == [cs[0]] + cs[1..];
    }
  }

  /** A NUL-terminated UTF-16 string converts to UTF-8 exactly when it is well-formed, and then
      the octets encode the scalar values it encodes, and nothing else. */
  lemma {:induction false} Utf16ToUtf8(w: seq<UInt32>)
    requires (forall k :: 0 <= k < |w| ==> w[k] <= 0xFFFF) && 0 !in w
    ensures var r := Narrowed(CodePoints(w + [0], 0, FirstNul(w + [0], 0), 2));
      && (Utf8Octets(r) <==> exists cs :: Scalars(cs) && w == Utf16(cs))
      && (forall cs :: Scalars(cs) && w == Utf16(cs) ==> r == Utf8(cs))
      && (forall cs, ds :: Scalars(cs) && w == Utf16(cs) && Scalars(ds) && r == Utf8(ds) ==> ds == cs)
  {
    var cs := CodePoints(w + [0], 0, |w|, 2);
    var r := Narrowed(cs);
    assert 0 !in w && FirstNul(w + [0], 0) == |w| by {
      assert forall k :: 0 <= k < |w| ==> (w + [0])[k] == w[k];
      assert (w + [0])[|w|] == 0;
    }
    assert w[0..] == w;
    NoNulAppears(w, 0);
    UnitsShown(w, 0);
    ValidIffAllShown(cs);
    if Scalars(cs) {
      Utf16Encodes(w, 0);
      NarrowedIsUtf8(cs);
    }
    forall ds | Scalars(ds) && w == Utf16(ds) ensures ds == cs {
      Utf16Decodes(w, 0, ds);
    }
    forall ds | Scalars(cs) && Scalars(ds) && r == Utf8(ds) ensures ds == cs {
      Utf8Injective(ds, cs);
    }
  }

  /** Code points of 16-bit characters are all below U+110000. */
  lemma {:induction false} UnitsShown(w: seq<UInt32>, i: nat)
    requires i <= |w| && 0 !in w && forall k :: 0 <= k < |w| ==> w[k] <= 0xFFFF
    ensures AllShown(CodePoints(w + [0], i, |w|, 2)) <==> Scalars(CodePoints(w + [0], i, |w|, 2))
    decreases |w| - i
  {
    if i < |w| {
      var n := Used(w, i);
      var cs := CodePoints(w + [0], i, |w|, 2);
      UnitsShown(w, i + n);
      assert AllShown(cs) <==> Shown(cs[0]) && AllShown(cs[1..]);
      assert Scalars(cs) <==> Scalar(cs[0]) && Scalars(cs[1..]);
    }
  }
}
