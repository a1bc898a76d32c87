/** Model of src/brickred/codec/url.cc (sections 2.1 and 2.3 of RFC 3986). */
module Url {
  import opened Bytes
  import opened Options

  const PERCENT: Byte := 37

  predicate IsUnreserved(c: Byte) {
    48 <= c <= 57 || 97 <= c <= 122 || 65 <= c <= 90 || c == 45 || c == 46 || c == 95 || c == 126
  }

  /** s_hex_to_letter. */
  function HexLetter(d: nat): (c: Byte)
    requires d < 16
  {
    if d < 10 then 48 + d else 55 + d
  }

  function LetterToHex(c: Byte): (d: int)
    ensures -1 <= d < 16
  {
    if 48 <= c <= 57 then c - 48
    else if 97 <= c <= 102 then c - 87
    else if 65 <= c <= 70 then c - 55
    else -1
  }

  lemma HexInverse(d: nat)
    requires d < 16
    ensures LetterToHex(HexLetter(d)) == d
  {}

  /** One byte of the plain text: itself, or a percent-encoded triplet. */
  function EncodeByte(c: Byte): (r: seq<Byte>)
    ensures 1 <= |r| <= 3
  {
    if IsUnreserved(c) then [c] else [PERCENT, HexLetter(c / 16), HexLetter(c % 16)]
  }

  function Encode(s: seq<Byte>): (r: seq<Byte>) {
    if s == [] then [] else EncodeByte(s[0]) + Encode(s[1..])
  }

  function HexPair(high: Byte, low: Byte): (c: Byte)
    requires LetterToHex(high) >= 0 && LetterToHex(low) >= 0
  {
    LetterToHex(high) * 16 + LetterToHex(low)
  }

  /** Number of input bytes behind the first decoded byte, and that byte; None when malformed. */
  function DecodeFront(s: seq<Byte>): (r: Option<(nat, Byte)>)
    requires s != []
    ensures r.Some? ==> 1 <= r.value.0 <= |s|
  {
    if s[0] == PERCENT then
      if |s| < 3 || LetterToHex(s[1]) < 0 || LetterToHex(s[2]) < 0 then None
      else Some((3, HexPair(s[1], s[2])))
    else if IsUnreserved(s[0]) then Some((1, s[0]))
    else None
  }

  function Decode(s: seq<Byte>): (r: Option<seq<Byte>>) {
    if s == [] then Some([])
    else
      var front := DecodeFront(s);
      if front.None? then None
      else
        var rest := Decode(s[front.value.0..]);
        if rest.None? then None else Some([front.value.1] + rest.value)
  }

  lemma DecodeFrontOfEncoded(c: Byte, rest: seq<Byte>)
    ensures DecodeFront(EncodeByte(c) + rest) == Some((|EncodeByte(c)|, c))
  {
    HexInverse(c / 16);
    HexInverse(c % 16);
  }

  lemma {:induction false} DecodeEncode(s: seq<Byte>)
    ensures Decode(Encode(s)) == Some(s)
    decreases |s|
  {
    if s != [] {
      hide EncodeByte, DecodeFront;
      var head, rest := EncodeByte(s[0]), Encode(s[1..]);
      DecodeFrontOfEncoded(s[0], rest);
      assert (head + rest)[|head|..] == rest;
      DecodeEncode(s[1..]);
      assert [s[0]] + s[1..] == s;
    }
  }

  /** A triplet is a percent sign and the two upper-case hexadecimal digits of the byte, the more significant first;
      unreserved are letters, digits and four marks. */
  lemma TripletIsHex(c: Byte)
    ensures var hex := "0123456789ABCDEF";
            !IsUnreserved(c) ==> EncodeByte(c) == ['%' as int, hex[c / 16] as int, hex[c % 16] as int]
    ensures IsUnreserved(c) <==> (|| 'A' <= c as char <= 'Z' || 'a' <= c as char <= 'z' || '0' <= c as char <= '9'
                                  || c as char in "-._~")
  {}

  /** Only unreserved characters, percent signs and upper-case hexadecimal digits; at most three per byte. */
  lemma {:induction false} EncodeAlphabet(s: seq<Byte>)
    ensures |s| <= |Encode(s)| <= 3 * |s|
    ensures forall c :: c in Encode(s) ==> IsUnreserved(c) || c == PERCENT
    decreases |s|
  {
    if s != [] {
      assert forall c :: c in EncodeByte(s[0]) ==> IsUnreserved(c) || c == PERCENT;
      hide EncodeByte, IsUnreserved;
      EncodeAlphabet(s[1..]);
    }
  }

  lemma {:induction false} DecodeShrinks(s: seq<Byte>)
    ensures Decode(s).Some? ==> |Decode(s).value| <= |s|
    decreases |s|
  {
    if s != [] && DecodeFront(s).Some? {
      DecodeShrinks(s[DecodeFront(s).value.0..]);
    }
  }

  /** urlEncode into a caller's buffer; -1 when it is too small. */
  method UrlEncode(input: seq<Byte>, out: array<Byte>) returns (n: int)
    modifies out
    ensures n == -1 <==> |Encode(input)| > out.Length
    ensures n >= 0 ==> n == |Encode(input)| && out[..n] == Encode(input)
    ensures n >= -1
  {
    assert Encode([]) == [];
    hide Encode, IsUnreserved, HexLetter;
    n := 0;
    assert input[0..] == input;
    for p := 0 to |input|
      invariant 0 <= n <= out.Length
      invariant out[..n] + Encode(input[p..]) == Encode(input)
    {
      EncodeAt(input, p);
      MoveFront(out[..n], Encode(input[p..]), EncodeByte(input[p]), Encode(input[p + 1..]), Encode(input));
      var c := input[p];
      ghost var done := out[..n];
      if IsUnreserved(c) {
        if out.Length - n < 1 {
          return -1;
        }
        out[n] := c;
        n := n + 1;
      } else {
        if out.Length - n < 3 {
          return -1;
        }
        out[n], out[n + 1], out[n + 2] := PERCENT, HexLetter(c / 16), HexLetter(c % 16);
        n := n + 3;
      }
      assert out[..n] == done + EncodeByte(c);
    }
    assert input[|input|..] == [];
  }

  lemma EncodeAt(input: seq<Byte>, p: nat)
    requires p < |input|
    ensures Encode(input[p..]) == EncodeByte(input[p]) + Encode(input[p + 1..])
  {
    hide EncodeByte;
    assert input[p..][1..] == input[p + 1..];
  }

  method EncodeString(input: seq<Byte>) returns (r: seq<Byte>)
    ensures r == Encode(input)
  {
    var out := new Byte[if |input| * 3 < 1 then 1 else |input| * 3];
    EncodeAlphabet(input);
    var count := UrlEncode(input, out);
    if count <= 0 {
      return [];
    }
    return out[..count];
  }

  /** urlDecode into a caller's buffer; -1 for malformed input or a buffer that is too small. */
  method UrlDecode(input: seq<Byte>, out: array<Byte>) returns (n: int)
    modifies out
    ensures n == -1 <==> Decode(input).None? || |Decode(input).value| > out.Length
    ensures n >= 0 ==> n == |Decode(input).value| && out[..n] == Decode(input).value
    ensures n >= -1
  {
    assert Decode([]) == Some([]);
    hide Decode, LetterToHex, IsUnreserved;
    var p := 0;
    n := 0;
    assert input[0..] == input;
    while p < |input|
      invariant 0 <= p <= |input| && 0 <= n <= out.Length
      invariant Decode(input).Some? <==> Decode(input[p..]).Some?
      invariant Decode(input).Some? ==> out[..n] + Decode(input[p..]).value == Decode(input).value
    {
      DecodeAt(input, p);
      var c, size := input[p], 1;
      if c == PERCENT {
        if |input| - p < 3 || out.Length - n < 1 {
          return -1;
        }
        var high, low := LetterToHex(input[p + 1]), LetterToHex(input[p + 2]);
        if high < 0 || low < 0 {
          return -1;
        }
        c, size := high * 16 + low, 3;
      } else if IsUnreserved(c) {
        if out.Length - n < 1 {
          return -1;
        }
      } else {
        return -1;
      }
      ghost var done, left, rest := out[..n], Decode(input[p..]), Decode(input[p + size..]);
      if rest.Some? {
        MoveFront(done, left.value, [c], rest.value, Decode(input).value);
      }
      out[n] := c;
      n := n + 1;
      p := p + size;
      assert out[..n] == done + [c];
    }
    assert input[p..] == [];
  }

  lemma DecodeAt(input: seq<Byte>, p: nat)
    requires p < |input|
    ensures var front := DecodeFront(input[p..]);
            if front.None? then Decode(input[p..]).None?
            else
              var q := p + front.value.0;
              var rest := Decode(input[q..]);
              Decode(input[p..]) == if rest.None? then None else Some([front.value.1] + rest.value)
    ensures DecodeFront(input[p..])
            == if input[p] == PERCENT then
                 if |input| - p < 3 || LetterToHex(input[p + 1]) < 0 || LetterToHex(input[p + 2]) < 0 then None
                 else Some((3, HexPair(input[p + 1], input[p + 2])))
               else if IsUnreserved(input[p]) then Some((1, input[p]))
               else None
    ensures Decode(input[p..]).Some? ==> Decode(input[p..]).value != []
  {
    var front := DecodeFront(input[p..]);
    hide LetterToHex, IsUnreserved;
    if front.Some? {
      assert input[p..][front.value.0..] == input[p + front.value.0..];
    }
  }

  method DecodeString(input: seq<Byte>) returns (r: seq<Byte>)
    ensures r == if Decode(input).Some? then Decode(input).value else []
  {
    var out := new Byte[|input|];
    DecodeShrinks(input);
    var count := UrlDecode(input, out);
    if count <= 0 {
      return [];
    }
    return out[..count];
  }
}
