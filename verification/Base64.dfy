/** Model of src/brickred/codec/base64.cc (section 4 of RFC 4648). */
module Base64 {
  import opened Bytes
  import opened Options

  const PAD: Byte := 61

  // ---------- bitwise or ----------

  function OrBits(a: nat, b: nat, width: nat): (r: nat)
    ensures r < Pow2(width)
  {
    if width == 0 then 0
    else 2 * OrBits(a / 2, b / 2, width - 1) + if a % 2 == 1 || b % 2 == 1 then 1 else 0
  }

  function Or(a: Byte, b: Byte): (r: Byte) {
    assert Pow2(8) == 256;
    OrBits(a, b, 8)
  }

  lemma {:induction false} OrZero(a: nat, width: nat)
    requires a < Pow2(width)
    ensures OrBits(a, 0, width) == a
  {
    if width > 0 { OrZero(a / 2, width - 1); }
  }

  /** Bit fields that do not overlap add up: `high` in units of 2^k, `low` below 2^k. */
  lemma {:induction false} OrDisjoint(high: nat, low: nat, k: nat, width: nat)
    requires low < Pow2(k) && high * Pow2(k) < Pow2(width) && k <= width
    ensures OrBits(high * Pow2(k), low, width) == high * Pow2(k) + low
  {
    if k == 0 {
      OrZero(high, width);
    } else {
      assert Pow2(k) == 2 * Pow2(k - 1);
      assert high * Pow2(k) == 2 * (high * Pow2(k - 1));
      OrDisjoint(high, low / 2, k - 1, width - 1);
    }
  }

  lemma OrFields(high: Byte, low: Byte)
    ensures high < 64 && low < 4 ==> Or(high * 4, low) == high * 4 + low
    ensures high < 16 && low < 16 ==> Or(high * 16, low) == high * 16 + low
    ensures high < 4 && low < 64 ==> Or(high * 64, low) == high * 64 + low
  {
    assert Pow2(2) == 4 && Pow2(4) == 16 && Pow2(6) == 4 * Pow2(4) && Pow2(8) == 4 * Pow2(6);
    if high < 64 && low < 4 { OrDisjoint(high, low, 2, 8); }
    if high < 16 && low < 16 { OrDisjoint(high, low, 4, 8); }
    if high < 4 && low < 64 { OrDisjoint(high, low, 6, 8); }
  }

  // ---------- the tables ----------

  /** s_encode_table: A-Z, a-z, 0-9, +, /. */
  function EncodeTable(i: nat): (c: Byte)
    requires i < 64
  {
    if i < 26 then 65 + i else if i < 52 then 97 + (i - 26) else if i < 62 then 48 + (i - 52)
    else if i == 62 then 43 else 47
  }

  predicate InAlphabet(c: Byte) {
    65 <= c <= 90 || 97 <= c <= 122 || 48 <= c <= 57 || c == 43 || c == 47
  }

  /** Whether the decoder counts a byte as padding; bytes from 128 on are negative chars. */
  predicate IsPad(c: Byte) { c < 43 || c > 122 || c == PAD }

  /** What the decoder stores for a byte: its s_decode_table entry as an unsigned char, 0 for padding. */
  function DecodeTable(c: Byte): (v: Byte) {
    if IsPad(c) then 0
    else if c == 43 then 62
    else if c == 47 then 63
    else if 48 <= c <= 57 then c + 4
    else if 65 <= c <= 90 then c - 65
    else if 97 <= c <= 122 then c - 71
    else 255
  }

  lemma TablesInverse(i: nat)
    requires i < 64
    ensures var c := EncodeTable(i); InAlphabet(c) && !IsPad(c) && DecodeTable(c) == i
  {}

  /** The order of Table 1 of RFC 4648: upper case, lower case, digits, plus and slash, without gaps. */
  lemma TableIsAlphabet(i: nat)
    requires i < 64
    ensures i in {0, 26, 52, 62, 63} ==>
              EncodeTable(i) == (match i
                                 case 0 => 'A'
                                 case 26 => 'a'
                                 case 52 => '0'
                                 case 62 => '+'
                                 case _ => '/') as int
    ensures i !in {0, 26, 52, 62, 63} ==> EncodeTable(i) == EncodeTable(i - 1) + 1
  {}

  // ---------- specification ----------

  /** Section 4 of RFC 4648: three bytes form a 24-bit number, written as four base-64 digits; a shorter last
      group is padded with zero bits and each missing byte turns one digit into '='. */
  function Quad(group: seq<Byte>): (r: seq<Byte>)
    requires 1 <= |group| <= 3
    ensures |r| == 4
  {
    var n := Number24(group[0], if |group| > 1 then group[1] else 0, if |group| > 2 then group[2] else 0);
    [EncodeTable(n / 0x4_0000), EncodeTable(n / 0x1000 % 64),
     if |group| > 1 then EncodeTable(n / 64 % 64) else PAD,
     if |group| > 2 then EncodeTable(n % 64) else PAD]
  }

  function Number24(b0: Byte, b1: Byte, b2: Byte): (n: nat)
    ensures n < 0x100_0000
  {
    b0 as int * 0x1_0000 + b1 as int * 0x100 + b2 as int
  }

  function FirstGroup(s: seq<Byte>): (n: nat)
    requires s != []
    ensures 1 <= n <= 3 && n <= |s|
  {
    if |s| >= 3 then 3 else |s|
  }

  function Encode(s: seq<Byte>): (r: seq<Byte>) {
    if s == [] then [] else Quad(s[..FirstGroup(s)]) + Encode(s[FirstGroup(s)..])
  }

  /** The bytes that the decoder takes from four input bytes, or None. */
  function Unquad(q: seq<Byte>): (r: Option<seq<Byte>>)
    requires |q| == 4
    ensures r.Some? ==> 1 <= |r.value| <= 3
  {
    var len := Count(q[0]) + Count(q[1]) + Count(q[2]) + Count(q[3]);
    var b0, b1, b2, b3 := DecodeTable(q[0]), DecodeTable(q[1]), DecodeTable(q[2]), DecodeTable(q[3]);
    if len < 2 then None
    else
      Some([Or(Low8(b0 as int * 4), b1 / 16)]
           + (if len > 2 then [Or(Low8(b1 as int * 16), b2 / 4)] else [])
           + (if len > 3 then [Or(Low8(b2 as int * 64), b3)] else []))
  }

  function Count(c: Byte): (n: nat) { if IsPad(c) then 0 else 1 }

  /** Conversion to unsigned char. */
  function Low8(x: nat): (r: Byte) { x % 256 }

  function Decode(s: seq<Byte>): (r: Option<seq<Byte>>) {
    if s == [] then Some([])
    else if |s| < 4 then None
    else
      var head := Unquad(s[..4]);
      if head.None? then None
      else
        var tail := Decode(s[4..]);
        if tail.None? then None else Some(head.value + tail.value)
  }

  // ---------- round trip ----------

  lemma DigitsOfSum(d0: nat, d1: nat, d2: nat, d3: nat)
    requires d0 < 64 && d1 < 64 && d2 < 64 && d3 < 64
    ensures var n := d0 * 0x4_0000 + d1 * 0x1000 + d2 * 64 + d3;
            n / 0x4_0000 == d0 && n / 0x1000 % 64 == d1 && n / 64 % 64 == d2 && n % 64 == d3
  {
    var n := d0 * 0x4_0000 + d1 * 0x1000 + d2 * 64 + d3;
    assert n / 64 == d0 * 0x1000 + d1 * 64 + d2;
    assert n / 0x1000 == d0 * 64 + d1;
  }

  lemma SplitByte(b: Byte)
    ensures b == b / 4 * 4 + b % 4 && b == b / 16 * 16 + b % 16 && b == b / 64 * 64 + b % 64
    ensures b / 4 < 64 && b / 16 < 16 && b / 64 < 4
  {}

  /** The four base-64 digits of three bytes. */
  lemma DigitsOf24(b0: Byte, b1: Byte, b2: Byte)
    ensures var n := Number24(b0, b1, b2);
            && n / 0x4_0000 == b0 / 4 && n / 0x1000 % 64 == b0 % 4 * 16 + b1 / 16
            && n / 64 % 64 == b1 % 16 * 4 + b2 / 64 && n % 64 == b2 % 64
  {
    SplitByte(b0); SplitByte(b1); SplitByte(b2);
    DigitsOfSum(b0 / 4, b0 % 4 * 16 + b1 / 16, b1 % 16 * 4 + b2 / 64, b2 % 64);
  }

  // The two digits that straddle bytes.
  function Digit1(b0: Byte, b1: Byte): (d: Byte)
    ensures d < 64
  {
    b0 % 4 * 16 + b1 / 16
  }

  function Digit2(b1: Byte, b2: Byte): (d: Byte)
    ensures d < 64
  {
    b1 % 16 * 4 + b2 / 64
  }

  lemma Low8Drops(q: nat, r: nat)
    requires r < 256
    ensures Low8(256 * q + r) == r
  {}

  lemma FirstByte(b0: Byte, b1: Byte)
    ensures Or(Low8((b0 / 4) as int * 4), Digit1(b0, b1) / 16) == b0
  {
    hide Or;
    SplitByte(b0); SplitByte(b1);
    OrFields(b0 / 4, b0 % 4);
    assert Digit1(b0, b1) / 16 == b0 % 4;
  }

  lemma SecondByte(b0: Byte, b1: Byte, b2: Byte)
    ensures Or(Low8(Digit1(b0, b1) as int * 16), Digit2(b1, b2) / 4) == b1
  {
    hide Or, Low8;
    SplitByte(b1); SplitByte(b2);
    OrFields(b1 / 16, b1 % 16);
    Low8Drops(b0 % 4, b1 / 16 * 16);
    assert Digit1(b0, b1) as int * 16 == 256 * (b0 % 4) + b1 / 16 * 16;
    assert Digit2(b1, b2) / 4 == b1 % 16;
  }

  lemma ThirdByte(b1: Byte, b2: Byte)
    ensures Or(Low8(Digit2(b1, b2) as int * 64), b2 % 64) == b2
  {
    hide Or, Low8;
    SplitByte(b2);
    OrFields(b2 / 64, b2 % 64);
    Low8Drops(b1 % 16, b2 / 64 * 64);
    assert Digit2(b1, b2) as int * 64 == 256 * (b1 % 16) + b2 / 64 * 64;
  }

  lemma PadIsZero()
    ensures DecodeTable(PAD) == 0 && IsPad(PAD)
  {}

  lemma UnquadQuad(group: seq<Byte>)
    requires 1 <= |group| <= 3
    ensures Unquad(Quad(group)) == Some(group)
  {
    hide Or, EncodeTable, Low8, Number24, DecodeTable, Digit1, Digit2, Quad, IsPad;
    var g0 := group[0];
    var g1 := if |group| > 1 then group[1] else 0;
    var g2 := if |group| > 2 then group[2] else 0;
    DigitsOf24(g0, g1, g2);
    FirstByte(g0, g1); SecondByte(g0, g1, g2); ThirdByte(g1, g2);
    TablesInverse(g0 / 4); TablesInverse(Digit1(g0, g1)); TablesInverse(Digit2(g1, g2)); TablesInverse(g2 % 64);
    PadIsZero();
    QuadByDigits(group, g0, g1, g2);
    var q := Quad(group);
    if |group| == 1 {
      assert Unquad(q).value == [g0];
      assert group == [g0];
    } else if |group| == 2 {
      assert Unquad(q).value == [g0] + [g1];
      assert group == [g0] + [g1];
    } else {
      assert Unquad(q).value == [g0] + [g1] + [g2];
      assert group == [g0] + [g1] + [g2];
    }
  }

  lemma QuadByDigits(group: seq<Byte>, g0: Byte, g1: Byte, g2: Byte)
    requires 1 <= |group| <= 3 && g0 == group[0]
    requires g1 == (if |group| > 1 then group[1] else 0) && g2 == (if |group| > 2 then group[2] else 0)
    ensures Quad(group) == [EncodeTable(g0 / 4), EncodeTable(Digit1(g0, g1)),
                            if |group| > 1 then EncodeTable(Digit2(g1, g2)) else PAD,
                            if |group| > 2 then EncodeTable(g2 % 64) else PAD]
  {
    hide EncodeTable, Number24;
    DigitsOf24(g0, g1, g2);
  }

  lemma {:induction false} DecodeEncode(s: seq<Byte>)
    ensures Decode(Encode(s)) == Some(s)
    decreases |s|
  {
    if s != [] {
      var k := FirstGroup(s);
      var quad, tail := Quad(s[..k]), Encode(s[k..]);
      assert (quad + tail)[..4] == quad && (quad + tail)[4..] == tail;
      UnquadQuad(s[..k]);
      DecodeEncode(s[k..]);
      hide Quad, Unquad, FirstGroup;
      assert s[..k] + s[k..] == s;
    }
  }

  /** Test vectors of section 10 of RFC 4648: "foob" gives "Zm9vYg==", "fooba" gives "Zm9vYmE=" and "foobar" gives
      "Zm9vYmFy". */
  lemma EncodesVectors()
    ensures Encode([102, 111, 111, 98]) == [90, 109, 57, 118, 89, 103, 61, 61]
    ensures Encode([102, 111, 111, 98, 97]) == [90, 109, 57, 118, 89, 109, 69, 61]
    ensures Encode([102, 111, 111, 98, 97, 114]) == [90, 109, 57, 118, 89, 109, 70, 121]
  {
    FirstQuad();
    WholeQuad();
    PaddedQuads();
    TwoGroups([102, 111, 111], [98]);
    TwoGroups([102, 111, 111], [98, 97]);
    TwoGroups([102, 111, 111], [98, 97, 114]);
  }

  lemma FirstQuad()
    ensures Quad([102, 111, 111]) == [90, 109, 57, 118]
  {}

  lemma WholeQuad()
    ensures Quad([98, 97, 114]) == [89, 109, 70, 121]
  {}

  lemma PaddedQuads()
    ensures Quad([98]) == [89, 103, 61, 61] && Quad([98, 97]) == [89, 109, 69, 61]
  {}

  lemma TwoGroups(a: seq<Byte>, b: seq<Byte>)
    requires |a| == 3 && 1 <= |b| <= 3
    ensures Encode(a + b) == Quad(a) + Quad(b)
  {
    hide Quad;
    assert (a + b)[..3] == a && (a + b)[3..] == b;
    assert b[..|b|] == b && b[|b|..] == [];
    assert Encode(b) == Quad(b) + [] == Quad(b);
  }

  lemma QuadAlphabet(group: seq<Byte>)
    requires 1 <= |group| <= 3
    ensures forall c :: c in Quad(group) ==> InAlphabet(c) || c == PAD
  {}

  lemma EncodedLength(n: nat, k: nat)
    requires n >= 1 && k == if n >= 3 then 3 else n
    ensures (n + 2) / 3 * 4 == 4 + (n - k + 2) / 3 * 4
  {}

  lemma {:induction false} EncodeAlphabet(s: seq<Byte>)
    ensures |Encode(s)| == (|s| + 2) / 3 * 4
    ensures forall c :: c in Encode(s) ==> InAlphabet(c) || c == PAD
    decreases |s|
  {
    if s != [] {
      var k := FirstGroup(s);
      hide Quad, InAlphabet, FirstGroup;
      QuadAlphabet(s[..k]);
      EncodeAlphabet(s[k..]);
      EncodedLength(|s|, k);
    }
  }

  lemma {:induction false} DecodeShrinks(s: seq<Byte>)
    ensures Decode(s).Some? ==> |Decode(s).value| <= |s|
    decreases |s|
  {
    if |s| >= 4 {
      DecodeShrinks(s[4..]);
    }
  }

  // ---------- the loops ----------

  /** base64Encode into a caller's buffer; -1 when it is too small. */
  method Base64Encode(input: seq<Byte>, out: array<Byte>) returns (n: int)
    modifies out
    ensures n == -1 <==> |Encode(input)| > out.Length
    ensures n >= 0 ==> n == |Encode(input)| && out[..n] == Encode(input)
    ensures n >= -1
  {
    assert Encode([]) == [];
    hide Quad, Encode;
    var inPos := 0;
    n := 0;
    while inPos < |input|
      invariant 0 <= inPos <= |input| && 0 <= n <= out.Length
      invariant out[..n] + Encode(input[inPos..]) == Encode(input)
      decreases |input| - inPos
    {
      var b0: Byte, b1: Byte, b2: Byte, len := input[inPos], 0, 0, 1;
      if |input| - inPos >= 3 {
        b1, b2, len := input[inPos + 1], input[inPos + 2], 3;
      } else if |input| - inPos == 2 {
        b1, len := input[inPos + 1], 2;
      }
      EncodeStep(input, inPos);
      ghost var group := input[inPos..inPos + len];
      MoveFront(out[..n], Encode(input[inPos..]), Quad(group), Encode(input[inPos + len..]), Encode(input));
      inPos := inPos + len;
      if out.Length - n < 4 {
        return -1;
      }
      PutQuad(b0, b1, b2, len, out, n, group);
      n := n + 4;
    }
    assert input[inPos..] == [];
  }

  /** The four stores of the encoder. */
  method PutQuad(b0: Byte, b1: Byte, b2: Byte, len: nat, out: array<Byte>, n: nat, ghost group: seq<Byte>)
    requires n + 4 <= out.Length && 1 <= len <= 3
    requires group == if len == 1 then [b0] else if len == 2 then [b0, b1] else [b0, b1, b2]
    requires (len < 2 ==> b1 == 0) && (len < 3 ==> b2 == 0)
    modifies out
    ensures out[..n + 4] == old(out[..n]) + Quad(group)
  {
    hide Quad, Or, EncodeTable, Digit1, Digit2;
    DigitsByBits(b0, b1); DigitsByBits(b1, b2);
    QuadByDigits(group, b0, b1, b2);
    out[n] := EncodeTable(b0 / 4);
    out[n + 1] := EncodeTable(Or(b0 % 4 * 16, b1 / 16));
    out[n + 2] := if len > 1 then EncodeTable(Or(b1 % 16 * 4, b2 / 64)) else PAD;
    out[n + 3] := if len > 2 then EncodeTable(b2 % 64) else PAD;
  }

  lemma EncodeStep(input: seq<Byte>, i: nat)
    requires i < |input|
    ensures var len := if |input| - i >= 3 then 3 else |input| - i;
            && Encode(input[i..]) == Quad(input[i..i + len]) + Encode(input[i + len..])
            && input[i..i + len] == (if len == 1 then [input[i]] else if len == 2 then [input[i], input[i + 1]]
                                     else [input[i], input[i + 1], input[i + 2]])
  {
    hide Quad;
    var left, len := input[i..], if |input| - i >= 3 then 3 else |input| - i;
    assert FirstGroup(left) == len;
    assert left[..len] == input[i..i + len] && left[len..] == input[i + len..];
  }

  /** The shifts and masks of the encoder extract the digits that straddle bytes. */
  lemma DigitsByBits(b0: Byte, b1: Byte)
    ensures Or(b0 % 4 * 16, b1 / 16) == Digit1(b0, b1) && Or(b0 % 16 * 4, b1 / 64) == Digit2(b0, b1)
  {
    hide Or;
    SplitByte(b1);
    OrFields(b0 % 4, b1 / 16); OrFields(b0 % 16, b1 / 64);
  }

  /** The string wrapper: its buffer is always large enough. */
  method EncodeString(input: seq<Byte>) returns (r: seq<Byte>)
    ensures r == Encode(input)
  {
    var out := new Byte[if |input| * 2 < 5 then 5 else |input| * 2];
    EncodeAlphabet(input);
    var count := Base64Encode(input, out);
    if count <= 0 {
      return [];
    }
    return out[..count];
  }

  /** base64Decode into a caller's buffer; -1 for malformed input or a buffer that is too small. */
  /** What has been decoded, and what is left to decode, make up the whole. */
  predicate DecodeLeft(done: seq<Byte>, left: seq<Byte>, whole: Option<seq<Byte>>) {
    && (whole.Some? <==> Decode(left).Some?)
    && (whole.Some? ==> done + Decode(left).value == whole.value)
  }

  lemma DecodeStart(input: seq<Byte>)
    ensures DecodeLeft([], input, Decode(input))
  {
    hide Decode;
    assert Decode(input).Some? ==> [] + Decode(input).value == Decode(input).value;
  }

  lemma DecodeAdvance(done: seq<Byte>, left: seq<Byte>, whole: Option<seq<Byte>>)
    requires DecodeLeft(done, left, whole) && left != []
    ensures |left| < 4 || Unquad(left[..4]).None? ==> whole.None?
    ensures |left| >= 4 && Unquad(left[..4]).Some? ==>
              var bytes := Unquad(left[..4]).value;
              && DecodeLeft(done + bytes, left[4..], whole)
              && (whole.Some? ==> |whole.value| >= |done| + |bytes|)
  {
    hide Unquad;
    if |left| >= 4 && Unquad(left[..4]).Some? && Decode(left).Some? {
      var bytes, rest := Unquad(left[..4]).value, Decode(left[4..]).value;
      assert done + (bytes + rest) == done + bytes + rest;
    }
  }

  lemma DecodeDone(done: seq<Byte>, whole: Option<seq<Byte>>)
    requires DecodeLeft(done, [], whole)
    ensures whole == Some(done)
  {
    assert done + [] == done;
  }

  method Base64Decode(input: seq<Byte>, out: array<Byte>) returns (n: int)
    modifies out
    ensures n == -1 <==> Decode(input).None? || |Decode(input).value| > out.Length
    ensures n >= 0 ==> n == |Decode(input).value| && out[..n] == Decode(input).value
    ensures n >= -1
  {
    hide Unquad, Decode, DecodeLeft;
    ghost var whole := Decode(input);
    var inPos := 0;
    n := 0;
    DecodeStart(input);
    assert input[0..] == input && out[..0] == [];
    while inPos < |input|
      invariant 0 <= inPos <= |input| && 0 <= n <= out.Length
      invariant DecodeLeft(out[..n], input[inPos..], whole)
    {
      ghost var left := input[inPos..];
      DecodeAdvance(out[..n], left, whole);
      if |input| - inPos < 4 {
        return -1;
      }
      assert left[..4] == input[inPos..inPos + 4] && left[4..] == input[inPos + 4..];
      var count := DecodeGroup(input[inPos..inPos + 4], out, n);
      if count == -1 {
        return -1;
      }
      n := n + count;
      inPos := inPos + 4;
    }
    assert input[inPos..] == [];
    DecodeDone(out[..n], whole);
  }

  /** The body of the loop: four characters become up to three bytes, if they are valid and the bytes fit. */
  method DecodeGroup(group: seq<Byte>, out: array<Byte>, n: nat) returns (count: int)
    requires |group| == 4 && n <= out.Length
    modifies out
    ensures count == -1 <==> Unquad(group).None? || n + |Unquad(group).value| > out.Length
    ensures count != -1 ==>
              && count == |Unquad(group).value| && n + count <= out.Length
              && out[..n + count] == old(out[..n]) + Unquad(group).value
  {
    hide Unquad;
    var bytes := Unquad(group);
    if bytes.None? {
      return -1;
    }
    if out.Length - n < |bytes.value| {
      return -1;
    }
    PutBytes(bytes.value, out, n);
    count := |bytes.value|;
  }

  method PutBytes(bytes: seq<Byte>, out: array<Byte>, n: nat)
    requires n + |bytes| <= out.Length
    modifies out
    ensures out[..n + |bytes|] == old(out[..n]) + bytes
  {
    ghost var done := out[..n];
    forall k | 0 <= k < |bytes| {
      out[n + k] := bytes[k];
    }
    assert out[..n + |bytes|] == done + bytes;
  }

  method DecodeString(input: seq<Byte>) returns (r: seq<Byte>)
    ensures r == if Decode(input).Some? then Decode(input).value else []
  {
    var out := new Byte[|input|];
    DecodeShrinks(input);
    var count := Base64Decode(input, out);
    if count <= 0 {
      return [];
    }
    return out[..count];
  }
}
