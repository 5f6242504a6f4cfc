/** Bytes as 8-bit words. */
module Words {

  lemma NextWord(w: bv8)
    requires w < 255
    ensures (w + 1) as int == w as int + 1
  {
  }

  /** Counting up to b. */
  lemma {:induction false} WordFor(b: nat) returns (w: bv8)
    requires b < 256
    ensures w as int == b
  {
    if b == 0 {
      w := 0;
    } else {
      var v := WordFor(b - 1);
      assert v < 255;
      NextWord(v);
      w := v + 1;
    }
  }

  lemma BackToWord(w: bv8, b: int)
    requires w as int == b
    ensures 0 <= b < 256 && b as bv8 == w
  {
  }

  /** A byte is its 8-bit word. */
  lemma WordOf(b: nat)
    requires b < 256
    ensures (b as bv8) as int == b
  {
    var w := WordFor(b);
    BackToWord(w, b);
  }
}

/**
  The base64 codec of src/tools/base64.c, against section 4 of RFC 4648 (24-bit groups cut into
  four 6-bit digits). Bytes are numbers below 256. The specification is written with quotients and
  remainders; the encoder and the decoder compute with the shifts and masks of the source on 8-bit
  words, which SextetWords and ByteWords prove to be the same.
 */
module Base64 {
  import opened CStrings
  import opened Words

  type byte = x: int | 0 <= x < 256
  type sextet = x: int | 0 <= x < 64

  /** The lookup table of the encoder. */
  const UPPER: string := "ABCDEFGHIJKLMNOPQRSTUVWXYZ"
  const LOWER: string := "abcdefghijklmnopqrstuvwxyz"
  const OTHERS: string := "0123456789+/"
  const LOOKUP: string := UPPER + LOWER + OTHERS

  /* ---- letters and their values ---- */

  /** The character of the base64 alphabet for a 6-bit digit. */
  function Letter(d: sextet): char
  {
    if d < 26 then 'A' + d as char
    else if d < 52 then 'a' + (d - 26) as char
    else if d < 62 then '0' + (d - 52) as char
    else if d == 62 then '+' else '/'
  }

  function Letters(ds: seq<sextet>): (s: string)
    ensures |s| == |ds|
  {
    seq(|ds|, i requires 0 <= i < |ds| => Letter(ds[i]))
  }

  /** The value of one character for the decoder; anything outside the alphabet counts as zero. */
  function Value(c: char): sextet
  {
    if 'A' <= c <= 'Z' then c as int - 'A' as int
    else if 'a' <= c <= 'z' then c as int + 26 - 'a' as int
    else if '0' <= c <= '9' then c as int + 52 - '0' as int
    else if c == '+' then 62
    else if c == '/' then 63
    else 0
  }

  function Values(s: string): (ds: seq<sextet>)
    ensures |ds| == |s|
  {
    seq(|s|, i requires 0 <= i < |s| => Value(s[i]))
  }

  lemma ValueOfLetter(d: sextet)
    ensures Value(Letter(d)) == d
    ensures Letter(d) != '=' && Letter(d) != '\'' && Letter(d) != '\0'
  {
  }

  /** Letters are neither padding, nor quote, nor terminator, and read back as their digits. */
  lemma ValuesOfLetters(ds: seq<sextet>)
    ensures Values(Letters(ds)) == ds
    ensures '=' !in Letters(ds) && '\'' !in Letters(ds) && '\0' !in Letters(ds)
  {
    forall i | 0 <= i < |ds|
      ensures Value(Letters(ds)[i]) == ds[i]
      ensures Letters(ds)[i] != '=' && Letters(ds)[i] != '\'' && Letters(ds)[i] != '\0'
    {
      ValueOfLetter(ds[i]);
    }
  }

  /** The lookup table of the source is the base64 alphabet. */
  lemma LookupIsLetter(d: nat)
    requires d < 64
    ensures |LOOKUP| == 64 && LOOKUP[d] == Letter(d)
  {
    assert |UPPER| == 26 && |LOWER| == 26 && |OTHERS| == 12;
    if d < 26 {
      assert UPPER[d] == Letter(d);
    } else if d < 52 {
      assert LOWER[d - 26] == Letter(d);
    } else {
      assert OTHERS[d - 52] == Letter(d);
    }
  }

  /* ---- bytes and 6-bit digits ---- */

  /** The indexes the encoder computes from three bytes. */
  function Spread(b1: byte, b2: byte, b3: byte): (ds: seq<sextet>)
    ensures |ds| == 4
  {
    [b1 / 4, b1 % 4 * 16 + b2 / 16, b2 % 16 * 4 + b3 / 64, b3 % 64]
  }

  /** The bytes the decoder computes from four values. */
  function Gather(r0: sextet, r1: sextet, r2: sextet, r3: sextet): (bs: seq<byte>)
    ensures |bs| == 3
  {
    [r0 * 4 + r1 / 16, r1 % 16 * 16 + r2 / 4, r2 % 4 * 64 + r3]
  }

  lemma OrIsSum(x: bv8, y: bv8)
    requires (x & 0x03 == 0 && y < 4) || (x & 0x0F == 0 && y < 16) || (x & 0x3F == 0 && y < 64)
    ensures (x | y) as int == x as int + y as int
  {
    assert x | y == x + y;
    if x & 0x03 == 0 && y < 4 {
      assert x <= 252;
    } else if x & 0x0F == 0 && y < 16 {
      assert x <= 240;
    } else {
      assert x <= 192;
    }
  }

  lemma Masks(b: bv8)
    ensures ((b & 0x03) << 4) as int == b as int % 4 * 16 && ((b & 0x03) << 4) & 0x0F == 0
    ensures ((b & 0x0F) << 2) as int == b as int % 16 * 4 && ((b & 0x0F) << 2) & 0x03 == 0
  {
  }

  lemma RightShifts(b: bv8)
    ensures (b >> 4) as int == b as int / 16 && b >> 4 < 16
    ensures (b >> 6) as int == b as int / 64 && b >> 6 < 4
    ensures (b >> 2) as int == b as int / 4 && (b < 64 ==> b >> 2 < 16)
    ensures b < 64 ==> b >> 4 < 4
  {
  }

  lemma LeftShift2(r: bv8)
    requires r < 64
    ensures (r << 2) as int == r as int * 4 && (r << 2) & 0x03 == 0
  {
  }

  lemma LeftShift4(r: bv8)
    ensures (r << 4) as int == r as int % 16 * 16 && (r << 4) & 0x0F == 0
  {
  }

  lemma LeftShift6(r: bv8)
    ensures (r << 6) as int == r as int % 4 * 64 && (r << 6) & 0x3F == 0
  {
  }

  /** On 8-bit words, the shifts and masks of the encoder are quotients and remainders. */
  lemma SextetWords(b: bv8, c: bv8)
    ensures (((b & 0x03) << 4) | (c >> 4)) as int == b as int % 4 * 16 + c as int / 16
    ensures (((b & 0x0F) << 2) | (c >> 6)) as int == b as int % 16 * 4 + c as int / 64
  {
    Masks(b);
    RightShifts(c);
    OrIsSum((b & 0x03) << 4, c >> 4);
    OrIsSum((b & 0x0F) << 2, c >> 6);
  }

  /** On 6-bit values, the shifts of the decoder, truncated to a char, are sums. */
  lemma ByteWords(r: bv8, q: bv8)
    requires r < 64 && q < 64
    ensures ((r << 2) | (q >> 4)) as int == r as int * 4 + q as int / 16
    ensures ((r << 4) | (q >> 2)) as int == r as int % 16 * 16 + q as int / 4
    ensures ((r << 6) | q) as int == r as int % 4 * 64 + q as int
  {
    LeftShift2(r);
    LeftShift4(r);
    LeftShift6(r);
    RightShifts(q);
    OrIsSum(r << 2, q >> 4);
    OrIsSum(r << 4, q >> 2);
    OrIsSum(r << 6, q);
  }

  lemma LowBits(b: bv8)
    ensures (b & 0x3F) as int == b as int % 64
  {
  }

  /* ---- the indexes of the encoder, as its shifts and masks compute them ---- */

  method HighIndex(b: byte) returns (d: sextet)
    ensures d == b / 4
  {
    WordOf(b);
    RightShifts(b as bv8);
    d := ((b as bv8) >> 2) as int;
  }

  method MiddleIndex(b: byte, c: byte) returns (d: sextet)
    ensures d == b % 4 * 16 + c / 16
  {
    WordOf(b);
    WordOf(c);
    SextetWords(b as bv8, c as bv8);
    d := ((((b as bv8) & 0x03) << 4) | ((c as bv8) >> 4)) as int;
  }

  lemma LowWord(b: byte, c: byte)
    ensures ((((b as bv8) & 0x0F) << 2) | ((c as bv8) >> 6)) as int == b % 16 * 4 + c / 64
  {
    WordOf(b);
    WordOf(c);
    SextetWords(b as bv8, c as bv8);
  }

  method LowIndex(b: byte, c: byte) returns (d: sextet)
    ensures d == b % 16 * 4 + c / 64
  {
    LowWord(b, c);
    d := ((((b as bv8) & 0x0F) << 2) | ((c as bv8) >> 6)) as int;
  }

  method LastIndex(b: byte) returns (d: sextet)
    ensures d == b % 64
  {
    WordOf(b);
    LowBits(b as bv8);
    d := ((b as bv8) & 0x3F) as int;
  }

  method MiddleEnd(b: byte) returns (d: sextet)
    ensures d == b % 4 * 16
  {
    WordOf(b);
    Masks(b as bv8);
    d := (((b as bv8) & 0x03) << 4) as int;
  }

  method LowEnd(b: byte) returns (d: sextet)
    ensures d == b % 16 * 4
  {
    WordOf(b);
    Masks(b as bv8);
    d := (((b as bv8) & 0x0F) << 2) as int;
  }

  /* ---- the bytes of the decoder, as its shifts compute them and a char keeps them ---- */

  method FirstByte(r: sextet, q: sextet) returns (b: byte)
    ensures b == r * 4 + q / 16
  {
    WordOf(r);
    WordOf(q);
    ByteWords(r as bv8, q as bv8);
    b := (((r as bv8) << 2) | ((q as bv8) >> 4)) as int;
  }

  method SecondByte(r: sextet, q: sextet) returns (b: byte)
    ensures b == r % 16 * 16 + q / 4
  {
    WordOf(r);
    WordOf(q);
    ByteWords(r as bv8, q as bv8);
    b := (((r as bv8) << 4) | ((q as bv8) >> 2)) as int;
  }

  method ThirdByte(r: sextet, q: sextet) returns (b: byte)
    ensures b == r % 4 * 64 + q
  {
    WordOf(r);
    WordOf(q);
    ByteWords(r as bv8, q as bv8);
    b := (((r as bv8) << 6) | (q as bv8)) as int;
  }

  lemma GatherFirst(q: int, p: int)
    requires 0 <= q < 4 && 0 <= p < 16
    ensures (q * 16 + p) / 16 == q && (q * 16 + p) % 16 == p
  {
  }

  lemma GatherSecond(q: int, p: int)
    requires 0 <= q < 16 && 0 <= p < 4
    ensures (q * 4 + p) / 4 == q && (q * 4 + p) % 4 == p
  {
  }

  /** Four digits made from three bytes give the bytes back. */
  lemma GatherSpread(b1: byte, b2: byte, b3: byte)
    ensures var d := Spread(b1, b2, b3); Gather(d[0], d[1], d[2], d[3]) == [b1, b2, b3]
  {
    GatherFirst(b1 % 4, b2 / 16);
    GatherSecond(b2 % 16, b3 / 64);
  }

  /** The digits of the input: the last group is completed with zero bits and cut short. */
  function Sextets(bs: seq<byte>): (ds: seq<sextet>)
  {
    if |bs| == 0 then []
    else if |bs| == 1 then Spread(bs[0], 0, 0)[..2]
    else if |bs| == 2 then Spread(bs[0], bs[1], 0)[..3]
    else Spread(bs[0], bs[1], bs[2]) + Sextets(bs[3..])
  }

  /** The bytes of a run of digits, four at a time; one or two digits make one byte, three make two. */
  function Bytes(ds: seq<sextet>): (bs: seq<byte>)
  {
    if |ds| == 0 then []
    else if |ds| == 1 then Gather(ds[0], 0, 0, 0)[..1]
    else if |ds| == 2 then Gather(ds[0], ds[1], 0, 0)[..1]
    else if |ds| == 3 then Gather(ds[0], ds[1], ds[2], 0)[..2]
    else Gather(ds[0], ds[1], ds[2], ds[3]) + Bytes(ds[4..])
  }

  lemma {:induction false} BytesOfSextets(bs: seq<byte>)
    ensures Bytes(Sextets(bs)) == bs
  {
    if |bs| == 0 {
    } else if |bs| == 1 {
      GatherSpread(bs[0], 0, 0);
    } else if |bs| == 2 {
      GatherSpread(bs[0], bs[1], 0);
    } else {
      GatherSpread(bs[0], bs[1], bs[2]);
      BytesOfSextets(bs[3..]);
      var d := Spread(bs[0], bs[1], bs[2]);
      assert Sextets(bs)[4..] == Sextets(bs[3..]);
    }
  }

  /* ---- encoding ---- */

  /** The padding that completes the last group of four characters. */
  function Padding(n: nat): string
  {
    if n % 3 == 1 then "==" else if n % 3 == 2 then "=" else ""
  }

  function Encode(bs: seq<byte>): string { Letters(Sextets(bs)) + Padding(|bs|) }

  lemma LettersConcat(a: seq<sextet>, b: seq<sextet>)
    ensures Letters(a + b) == Letters(a) + Letters(b)
  {
  }

  /** One group of the encoding. */
  lemma EncodeStep(bs: seq<byte>)
    requires |bs| >= 3
    ensures Encode(bs) == Letters(Spread(bs[0], bs[1], bs[2])) + Encode(bs[3..])
  {
    LettersConcat(Spread(bs[0], bs[1], bs[2]), Sextets(bs[3..]));
    assert Padding(|bs|) == Padding(|bs| - 3);
  }

  /** The length a reader of the encoding relies on: four characters for three bytes, rounded up. */
  lemma {:induction false} EncodedLength(bs: seq<byte>)
    ensures |Encode(bs)| == (|bs| + 2) / 3 * 4
  {
    if |bs| >= 3 {
      EncodedLength(bs[3..]);
      EncodeStep(bs);
    }
  }

  /** The 24-bit group of section 4 of RFC 4648: three bytes, most significant first. */
  function Group(b1: byte, b2: byte, b3: byte): (v: nat)
    ensures v < 0x100_0000
  {
    b1 * 0x1_0000 + b2 * 0x100 + b3
  }

  /** The four characters of the standard for a 24-bit group. */
  function RfcQuad(v: nat): (q: string)
    requires v < 0x100_0000
    ensures |q| == 4
  {
    [Letter(v / 0x4_0000), Letter(v / 0x1000 % 64), Letter(v / 64 % 64), Letter(v % 64)]
  }

  /** The encoding of the standard: the last group is completed with zero bits and padded with '='. */
  function Rfc4648(bs: seq<byte>): string
  {
    if |bs| == 0 then ""
    else if |bs| == 1 then RfcQuad(Group(bs[0], 0, 0))[..2] + "=="
    else if |bs| == 2 then RfcQuad(Group(bs[0], bs[1], 0))[..3] + "="
    else RfcQuad(Group(bs[0], bs[1], bs[2])) + Rfc4648(bs[3..])
  }

  lemma DivRem(k: nat, q: nat, r: nat)
    requires r < 64
    requires k == 64 * q + r
    ensures k / 64 == q && k % 64 == r
  {
  }

  /** The base-64 digits of a 24-bit sum. */
  lemma DigitsOfSum(v: nat, d1: nat, d2: nat, d3: nat, d4: nat)
    requires d1 < 64 && d2 < 64 && d3 < 64 && d4 < 64
    requires v == ((d1 * 64 + d2) * 64 + d3) * 64 + d4
    ensures v / 0x4_0000 == d1 && v / 0x1000 % 64 == d2 && v / 64 % 64 == d3 && v % 64 == d4
  {
    DivRem(v, (d1 * 64 + d2) * 64 + d3, d4);
    DivRem(v / 64, d1 * 64 + d2, d3);
    DivRem(v / 64 / 64, d1, d2);
    assert v / 0x1000 == v / 64 / 64;
    assert v / 0x4_0000 == v / 64 / 64 / 64;
  }

  /** The digits of the encoder are those of the 24-bit group. */
  lemma SpreadIsRfc(b1: byte, b2: byte, b3: byte)
    ensures Letters(Spread(b1, b2, b3)) == RfcQuad(Group(b1, b2, b3))
  {
    var d := Spread(b1, b2, b3);
    var v := Group(b1, b2, b3);
    DigitsOfSum(v, d[0], d[1], d[2], d[3]);
    assert Letters(d) == [Letter(d[0]), Letter(d[1]), Letter(d[2]), Letter(d[3])];
  }

  /** The encoder implements section 4 of RFC 4648. */
  lemma {:induction false} EncodeIsRfc4648(bs: seq<byte>)
    ensures Encode(bs) == Rfc4648(bs)
  {
    if |bs| == 0 {
    } else if |bs| < 3 {
      var last := if |bs| == 2 then bs[1] else 0;
      SpreadIsRfc(bs[0], last, 0);
      assert Letters(Sextets(bs)) == Letters(Spread(bs[0], last, 0))[..|bs| + 1];
    } else {
      SpreadIsRfc(bs[0], bs[1], bs[2]);
      EncodeIsRfc4648(bs[3..]);
      EncodeStep(bs);
    }
  }

  /** b64_lkp[d] */
  method LookUp(d: sextet) returns (c: char)
    ensures c == Letter(d)
  {
    LookupIsLetter(d);
    c := LOOKUP[d];
  }

  /** Four characters through the write pointer. */
  method Put(buffer: array<char>, dest: nat, c1: char, c2: char, c3: char, c4: char)
    requires dest + 4 <= buffer.Length
    modifies buffer
    ensures buffer[..dest + 4] == old(buffer[..dest]) + [c1, c2, c3, c4]
  {
    buffer[dest], buffer[dest + 1], buffer[dest + 2], buffer[dest + 3] := c1, c2, c3, c4;
  }

  /** One turn of the encoder loop. */
  method EncodeGroup(rest: seq<byte>, buffer: array<char>, dest: nat) returns (next: nat)
    requires |rest| >= 3 && dest + |Encode(rest)| < buffer.Length
    modifies buffer
    ensures next + |Encode(rest[3..])| == dest + |Encode(rest)|
    ensures next <= buffer.Length && buffer[..next] + Encode(rest[3..]) == old(buffer[..dest]) + Encode(rest)
  {
    EncodeStep(rest);
    var b1, b2, b3 := rest[0], rest[1], rest[2];
    var d1 := HighIndex(b1);
    var d2 := MiddleIndex(b1, b2);
    var d3 := LowIndex(b2, b3);
    var d4 := LastIndex(b3);
    var c1 := LookUp(d1);
    var c2 := LookUp(d2);
    var c3 := LookUp(d3);
    var c4 := LookUp(d4);
    assert Letters(Spread(b1, b2, b3)) == [c1, c2, c3, c4];
    Put(buffer, dest, c1, c2, c3, c4);
    next := dest + 4;
  }

  /** The end of the encoder: the last group and its padding. */
  method EncodeTail(tail: seq<byte>, buffer: array<char>, dest: nat)
    requires 1 <= |tail| <= 2 && dest + 4 <= buffer.Length
    modifies buffer
    ensures |Encode(tail)| == 4
    ensures buffer[..dest + 4] == old(buffer[..dest]) + Encode(tail)
  {
    var b1 := tail[0];
    var d1 := HighIndex(b1);
    var c1 := LookUp(d1);
    if |tail| == 1 {
      var d2 := MiddleEnd(b1);
      var c2 := LookUp(d2);
      assert Letters(Sextets(tail)) == [c1, c2];
      Put(buffer, dest, c1, c2, '=', '=');
    } else {
      var b2 := tail[1];
      var d2 := MiddleIndex(b1, b2);
      var d3 := LowEnd(b2);
      var c2 := LookUp(d2);
      var c3 := LookUp(d3);
      assert Letters(Sextets(tail)) == [c1, c2, c3];
      Put(buffer, dest, c1, c2, c3, '=');
    }
  }

  /**
    base64encode: the buffer holds the encoding and its terminator, within the bytes allocated.
   */
  method Base64Encode(input: seq<byte>) returns (buffer: array<char>)
    ensures fresh(buffer) && buffer.Length == |Encode(input)| + 2
    ensures buffer[..|Encode(input)|] == Encode(input)
    ensures buffer[|Encode(input)|] == '\0'
  {
    EncodedLength(input);
    buffer := new char[(|input| + 2) / 3 * 4 + 2];
    var dest: nat, rest := 0, input;
    while |rest| >= 3
      invariant dest + |Encode(rest)| == |Encode(input)|
      invariant buffer[..dest] + Encode(rest) == Encode(input)
    {
      dest := EncodeGroup(rest, buffer, dest);
      rest := rest[3..];
    }
    assert |rest| == 0 ==> Encode(rest) == "";
    if |rest| > 0 {
      EncodedLength(rest);
      EncodeTail(rest, buffer, dest);
      dest := dest + 4;
    }
    assert buffer[..dest] == Encode(input);
    buffer[dest] := '\0';
  }

  /* ---- decoding ---- */

  function DecodeRun(s: string): seq<byte> { Bytes(Values(s)) }

  /** What the decoder makes of a C string: it stops only at '=' or at the end, never at a quote. */
  function Decode(s: string): seq<byte> { DecodeRun(s[..Span(s, "=")]) }

  /** The decoder never reads past the terminator. */
  predicate StaysInside(s: string) { '=' in s || |s| % 4 == 0 }

  /** The bytes the decoder allocates for the payload, its terminator excluded. */
  function DecodeCapacity(inlength: nat): nat { (inlength / 4 + 3) * 3 + 1 }

  /** The number of bytes written for a group of i characters. */
  function GroupSize(i: nat): nat
  {
    if i > 3 then 3 else if i > 2 then 2 else if i > 0 then 1 else 0
  }

  lemma {:induction false} BytesLength(ds: seq<sextet>)
    ensures |Bytes(ds)| == |ds| / 4 * 3 + GroupSize(|ds| % 4)
  {
    if |ds| >= 4 {
      BytesLength(ds[4..]);
    }
  }

  lemma {:induction false} BytesSplit(ds: seq<sextet>, k: nat)
    requires 4 * k <= |ds|
    ensures Bytes(ds) == Bytes(ds[..4 * k]) + Bytes(ds[4 * k..])
  {
    if k == 0 {
      assert ds[0..] == ds;
    } else {
      BytesSplit(ds[4..], k - 1);
      var front := ds[..4 * k];
      assert |front| >= 4 && front[..4] == ds[..4];
      assert front[0] == ds[0] && front[1] == ds[1] && front[2] == ds[2] && front[3] == ds[3];
      assert ds[4..][..4 * (k - 1)] == front[4..];
      assert ds[4..][4 * (k - 1)..] == ds[4 * k..];
    }
  }

  lemma DecodeRunSplit(s: string, k: nat)
    requires 4 * k <= |s|
    ensures DecodeRun(s) == DecodeRun(s[..4 * k]) + DecodeRun(s[4 * k..])
  {
    BytesSplit(Values(s), k);
    assert Values(s)[..4 * k] == Values(s[..4 * k]);
    assert Values(s)[4 * k..] == Values(s[4 * k..]);
  }

  lemma DecodeOfDigits(bs: seq<byte>)
    ensures DecodeRun(Letters(Sextets(bs))) == bs
  {
    ValuesOfLetters(Sextets(bs));
    BytesOfSextets(bs);
  }

  lemma BodyOf(d: string, rest: string)
    requires '=' !in d && (rest == "" || rest[0] == '=')
    ensures (d + rest)[..Span(d + rest, "=")] == d
    ensures rest != "" ==> '=' in d + rest
  {
    var s := d + rest;
    if rest != "" {
      SpanOf(d, '=', rest[1..], "=");
      assert s == d + ['='] + rest[1..];
      assert s[|d|] == '=';
    }
    assert s[..|d|] == d;
  }

  lemma DecodeStops(d: string, rest: string)
    requires '=' !in d && (rest == "" || rest[0] == '=')
    ensures Decode(d + rest) == DecodeRun(d)
    ensures rest != "" || |d| % 4 == 0 ==> StaysInside(d + rest)
  {
    BodyOf(d, rest);
  }

  lemma EncodedFits(bs: seq<byte>)
    ensures |bs| <= DecodeCapacity(|Encode(bs)|)
  {
    EncodedLength(bs);
  }

  lemma NoPadding(d: string, pad: string)
    ensures pad == "" ==> d + pad == d
  {
  }

  /** Without padding the encoding is a run of whole groups. */
  lemma WholeGroups(bs: seq<byte>)
    ensures Padding(|bs|) == "" ==> |Letters(Sextets(bs))| % 4 == 0
  {
    EncodedLength(bs);
    MultipleOfFour(|Encode(bs)|, (|bs| + 2) / 3);
    NoPadding(Letters(Sextets(bs)), Padding(|bs|));
  }

  /** Decoding inverts encoding; the buffer sized from the text is large enough. */
  lemma RoundTrip(bs: seq<byte>)
    ensures StaysInside(Encode(bs)) && Decode(Encode(bs)) == bs
    ensures |bs| <= DecodeCapacity(|Encode(bs)|)
  {
    EncodedFits(bs);
    WholeGroups(bs);
    DecodeOfDigits(bs);
    ValuesOfLetters(Sextets(bs));
    DecodeStops(Letters(Sextets(bs)), Padding(|bs|));
  }

  /**
    Text after the encoding does not matter when the encoding is padded: the decoder stops at the
    padding, whatever quote or attribute follows.
   */
  lemma PaddedThenText(bs: seq<byte>, text: string)
    requires |bs| % 3 != 0
    ensures StaysInside(Encode(bs) + text) && Decode(Encode(bs) + text) == bs
  {
    var d, pad := Letters(Sextets(bs)), Padding(|bs|);
    DecodeOfDigits(bs);
    ValuesOfLetters(Sextets(bs));
    Associates(d, pad, text);
    assert (pad + text)[0] == pad[0] == '=';
    DecodeStops(d, pad + text);
  }

  /**
    Without padding the decoder runs through the closing quote up to the '=' of the next
    attribute. With the fourteen characters of "' originalSize" in between, the payload comes out
    as a prefix followed by ten bytes made of that name, and the 3k + 11 bytes allocated for an
    input of 4k + 1 characters are exactly used.
   */
  lemma UnpaddedThenName(bs: seq<byte>, name: string, rest: string)
    requires |bs| % 3 == 0
    requires |name| == 14 && '=' !in name
    ensures var text := (Encode(bs) + name) + ("=" + rest);
      && StaysInside(text)
      && |Decode(text)| == |bs| + 10 == DecodeCapacity(|Encode(bs)| + 1)
      && Decode(text)[..|bs|] == bs
  {
    var d := Letters(Sextets(bs));
    EncodedLength(bs);
    assert Encode(bs) == d;
    DecodeOfDigits(bs);
    ValuesOfLetters(Sextets(bs));
    DecodeStops(d + name, "=" + rest);
    RunThenName(d, |bs| / 3, name);
  }

  lemma RunThenName(d: string, k: nat, name: string)
    requires |d| == 4 * k && |name| == 14
    ensures |DecodeRun(d + name)| == |DecodeRun(d)| + 10 == DecodeCapacity(|d| + 1)
    ensures DecodeRun(d + name)[..|DecodeRun(d)|] == DecodeRun(d)
  {
    var run := d + name;
    DecodeRunSplit(run, k);
    assert run[..4 * k] == d && run[4 * k..] == name;
    RunLength(d, k, 0);
    RunLength(name, 3, 2);
    assert DecodeCapacity(4 * k + 1) == 3 * k + 10;
  }

  /** The number of bytes in a run of whole groups and a short one. */
  lemma RunLength(s: string, k: nat, i: nat)
    requires |s| == 4 * k + i && i < 4
    ensures |DecodeRun(s)| == 3 * k + GroupSize(i)
  {
    BytesLength(Values(s));
  }

  /** The bytes of one group come last. */
  lemma DecodeGrow(run: string, k: nat, i: nat)
    requires 4 * k + i <= |run| && i <= 4
    ensures DecodeRun(run[..4 * k + i]) == DecodeRun(run[..4 * k]) + DecodeRun(run[4 * k..4 * k + i])
    ensures i == 4 || 4 * k + i == |run| ==> |DecodeRun(run[..4 * k + i])| <= |DecodeRun(run)|
  {
    var front := run[..4 * k + i];
    DecodeRunSplit(front, k);
    assert front[..4 * k] == run[..4 * k] && front[4 * k..] == run[4 * k..4 * k + i];
    if i == 4 {
      DecodeRunSplit(run, k + 1);
    } else if 4 * k + i == |run| {
      assert front == run;
    }
  }

  lemma GroupIsRun(s: string, res: seq<sextet>)
    requires 1 <= |s| <= 4 && |res| == 4
    requires forall j :: 0 <= j < 4 ==> res[j] == if j < |s| then Value(s[j]) else 0
    ensures DecodeRun(s) == Gather(res[0], res[1], res[2], res[3])[..GroupSize(|s|)]
  {
    if |s| == 4 {
      assert Bytes(Values(s)[4..]) == [];
    }
  }

  /**
    The inner loop of base64decode: up to four characters before '='. The terminator is read like
    any other character, so a short last group without '=' leaves the string.
   */
  method ReadGroup(input: string, start: nat) returns (inside: bool, res: seq<sextet>, i: nat)
    requires start < |input| && input[start] != '='
    ensures |res| == 4 && 1 <= i <= 4
    ensures inside <==> start + 4 <= |input| || '=' in input[start..]
    ensures inside ==> start + i <= |input| && '=' !in input[start..start + i]
    ensures inside ==> i == 4 || (start + i < |input| && input[start + i] == '=')
    ensures inside ==> forall j :: 0 <= j < 4 ==> res[j] == if j < i then Value(input[start + j]) else 0
  {
    res, i, inside := [0, 0, 0, 0], 0, true;
    var posi := start;
    while i < 4
      invariant i <= 4 && posi == start + i <= |input| && |res| == 4
      invariant i == 0 ==> input[start] != '='
      invariant '=' !in input[start..posi]
      invariant forall j :: 0 <= j < 4 ==> res[j] == if j < i then Value(input[start + j]) else 0
    {
      if posi == |input| {
        inside, i := false, i + 1;
        return;
      }
      if input[posi] == '=' {
        return;
      }
      res, i, posi := res[i := Value(input[posi])], i + 1, posi + 1;
    }
  }

  /** The writes of one group; fits is false when they, or the terminator after them, overrun the buffer. */
  method PutGroup(buffer: array<byte>, start: nat, res: seq<sextet>, i: nat) returns (fits: bool, poso: nat)
    requires |res| == 4 && 1 <= i <= 4
    modifies buffer
    ensures fits <==> start + GroupSize(i) < buffer.Length
    ensures fits ==> poso == start + GroupSize(i)
    ensures fits ==> buffer[..poso] ==
                     old(buffer[..start]) + Gather(res[0], res[1], res[2], res[3])[..GroupSize(i)]
  {
    poso := start;
    fits := start + GroupSize(i) < buffer.Length;
    if !fits {
      return;
    }
    var b := FirstByte(res[0], res[1]);
    buffer[poso] := b;
    poso := poso + 1;
    if i > 2 {
      b := SecondByte(res[1], res[2]);
      buffer[poso] := b;
      poso := poso + 1;
    }
    if i > 3 {
      b := ThirdByte(res[2], res[3]);
      buffer[poso] := b;
      poso := poso + 1;
    }
  }

  /** A stop is not inside a run that lacks it. */
  lemma NotInside(s: string, c: char, stop: nat, a: nat, e: nat)
    requires stop <= |s| && (stop < |s| ==> s[stop] == c)
    requires a < stop && a <= e <= |s| && c !in s[a..e]
    ensures e <= stop
  {
    forall j | a <= j < e ensures s[j] != c {
      assert s[a..e][j - a] == s[j];
    }
  }

  lemma SpanStops(s: string, c: char)
    ensures Span(s, [c]) < |s| ==> s[Span(s, [c])] == c
    ensures forall i :: 0 <= i < Span(s, [c]) ==> s[i] != c
  {
  }

  lemma StopBehind(input: string, a: nat, e: nat)
    requires a < Span(input, "=") && a <= e <= |input| && '=' !in input[a..e]
    ensures e <= Span(input, "=")
    ensures e < |input| && input[e] == '=' ==> e == Span(input, "=")
  {
    assert "=" == ['='];
    SpanStops(input, '=');
    NotInside(input, '=', Span(input, "="), a, e);
  }

  /** One more group of a run. */
  lemma RunStep(run: string, k: nat, res: seq<sextet>, i: nat)
    requires |res| == 4 && 1 <= i <= 4 && 4 * k + i <= |run| && (i == 4 || 4 * k + i == |run|)
    requires forall j :: 0 <= j < 4 ==> res[j] == if j < i then Value(run[4 * k + j]) else 0
    ensures DecodeRun(run[..4 * k + i]) ==
            DecodeRun(run[..4 * k]) + Gather(res[0], res[1], res[2], res[3])[..GroupSize(i)]
    ensures |DecodeRun(run[..4 * k + i])| <= |DecodeRun(run)|
  {
    GroupIsRun(run[4 * k..4 * k + i], res);
    DecodeGrow(run, k, i);
  }

  /** What one turn of the decoder loop adds. */
  lemma GroupStep(input: string, k: nat, res: seq<sextet>, i: nat)
    requires 4 * k < Span(input, "=")
    requires |res| == 4 && 1 <= i <= 4 && 4 * k + i <= |input| && '=' !in input[4 * k..4 * k + i]
    requires i == 4 || (4 * k + i < |input| && input[4 * k + i] == '=')
    requires forall j :: 0 <= j < 4 ==> res[j] == if j < i then Value(input[4 * k + j]) else 0
    ensures 4 * k + i <= Span(input, "=")
    ensures i == 4 || 4 * k + i == Span(input, "=") < |input|
    ensures DecodeRun(input[..4 * k + i]) ==
            DecodeRun(input[..4 * k]) + Gather(res[0], res[1], res[2], res[3])[..GroupSize(i)]
    ensures |DecodeRun(input[..4 * k + i])| <= |Decode(input)|
  {
    var stop := Span(input, "=");
    StopBehind(input, 4 * k, 4 * k + i);
    PrefixSlices(input, stop, 4 * k, 4 * k + i);
    RunStep(input[..stop], k, res, i);
  }

  lemma PrefixSlices(s: string, n: nat, a: nat, b: nat)
    requires a <= b <= n <= |s|
    ensures s[..n][..a] == s[..a] && s[..n][..b] == s[..b] && s[..n][a..b] == s[a..b]
  {
  }

  lemma ShortGroup(input: string, k: nat)
    requires 4 * k < |input| < 4 * k + 4
    requires '=' !in input[..4 * k] && '=' !in input[4 * k..]
    ensures !StaysInside(input)
  {
    assert input == input[..4 * k] + input[4 * k..];
  }

  /** One turn of the decoder loop; going is false when it leaves the string or the buffer. */
  method DecodeGroup(input: string, start: nat, ghost k: nat, buffer: array<byte>, dest: nat)
    returns (going: bool, posi: nat, poso: nat)
    requires start == 4 * k < Span(input, "=")
    requires dest < buffer.Length && buffer[..dest] == DecodeRun(input[..start])
    modifies buffer
    ensures going ==> start < posi <= Span(input, "=")
    ensures going ==> posi == start + 4 || posi == Span(input, "=") < |input|
    ensures going ==> poso < buffer.Length && buffer[..poso] == DecodeRun(input[..posi])
    ensures !going ==> !StaysInside(input) || buffer.Length <= |Decode(input)|
  {
    going, posi, poso := false, start, dest;
    var inside, res, i := ReadGroup(input, start);
    if !inside {
      ShortGroup(input, k);
      return;
    }
    GroupStep(input, k, res, i);
    going, poso := PutGroup(buffer, dest, res, i);
    posi := start + i;
  }

  /**
    base64decode over a C string. ok is false when the source would read past the terminator or
    write past its allocation; both are decided by the text and the announced length alone.
   */
  method Base64Decode(input: string, inlength: nat) returns (ok: bool, buffer: array<byte>, poso: nat)
    requires '\0' !in input
    ensures fresh(buffer) && buffer.Length == DecodeCapacity(inlength) + 1
    ensures ok <==> StaysInside(input) && |Decode(input)| <= DecodeCapacity(inlength)
    ensures ok ==> poso == |Decode(input)| && buffer[..poso] == Decode(input) && buffer[poso] == 0
  {
    ok, poso := false, 0;
    buffer := new byte[DecodeCapacity(inlength) + 1];
    var posi := 0;
    ghost var k := 0;
    ghost var stop := Span(input, "=");
    while posi < |input| && input[posi] != '='
      invariant posi <= stop && (posi == 4 * k || posi == stop < |input|)
      invariant poso < buffer.Length && buffer[..poso] == DecodeRun(input[..posi])
      decreases |input| - posi
    {
      var going;
      going, posi, poso := DecodeGroup(input, posi, k, buffer, poso);
      if !going {
        return;
      }
      k := k + 1;
    }
    DecodeDone(input, posi, k);
    buffer[poso] := 0;
    ok := true;
  }

  lemma DecodeDone(input: string, posi: nat, k: nat)
    requires posi <= Span(input, "=") && (posi < |input| ==> input[posi] == '=')
    requires posi == 4 * k || posi == Span(input, "=") < |input|
    ensures StaysInside(input) && Decode(input) == DecodeRun(input[..posi])
  {
    StopsHere(input, posi);
    MultipleOfFour(|input|, k);
  }

  lemma StopsHere(input: string, posi: nat)
    requires posi <= Span(input, "=") && (posi < |input| ==> input[posi] == '=')
    ensures posi == Span(input, "=") && (posi < |input| ==> '=' in input)
  {
  }

  lemma MultipleOfFour(n: nat, k: nat)
    ensures n == 4 * k ==> n % 4 == 0
  {
  }

  /* ---- what an attribute holding an encoding looks like ---- */

  /** The encoding contains no quote, no blank and no terminator. */
  lemma EncodingIsQuotable(bs: seq<byte>)
    ensures '\'' !in Encode(bs) && '\0' !in Encode(bs) && ' ' !in Encode(bs)
  {
    ValuesOfLetters(Sextets(bs));
    assert '\'' !in Padding(|bs|) && '\0' !in Padding(|bs|) && ' ' !in Padding(|bs|);
  }

  lemma {:induction false} LastOfThree(bs: seq<byte>)
    requires |bs| % 3 == 2
    ensures |Sextets(bs)| > 0 && Sextets(bs)[|Sextets(bs)| - 1] % 4 == 0
  {
    if |bs| > 2 {
      LastOfThree(bs[3..]);
    }
  }

  /** The digit before a single padding sign ends in two zero bits: it is never the letter 'e'. */
  lemma SinglePadding(bs: seq<byte>)
    requires |Encode(bs)| >= 2 && Encode(bs)[|Encode(bs)| - 1] == '='
    ensures Encode(bs)[|Encode(bs)| - 2] != 'e'
  {
    var ds := Sextets(bs);
    ValuesOfLetters(ds);
    if |bs| % 3 == 2 {
      LastOfThree(bs);
      assert Encode(bs)[|Encode(bs)| - 2] == Letter(ds[|ds| - 1]);
      assert Letter(30) == 'e';
      ValueOfLetter(ds[|ds| - 1]);
      ValueOfLetter(30);
    }
  }
}
