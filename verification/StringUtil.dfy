/** Model of src/brickred/string_util.cc over byte strings, with the C library scanners its callers use. */
module StringUtil {
  import opened Bytes

  const CR: Byte := 13
  const LF: Byte := 10
  const SPACE: Byte := 32
  const COLON: Byte := 58
  const CRLF: seq<Byte> := [CR, LF]

  /** Bytes of an ASCII literal. */
  function Ascii(s: string): (r: seq<Byte>)
    requires forall i :: 0 <= i < |s| ==> s[i] < 128 as char
    ensures |r| == |s|
  {
    seq(|s|, i requires 0 <= i < |s| => s[i] as int)
  }

  // ---------- find ----------

  predicate MatchAt(s: seq<Byte>, key: seq<Byte>, i: int) {
    0 <= i && i + |key| <= |s| && s[i..i + |key|] == key
  }

  /** First index at or after i where key occurs, or -1. */
  function FindFrom(s: seq<Byte>, key: seq<Byte>, i: nat): (r: int)
    ensures r == -1 || i <= r <= |s| - |key|
    decreases |s| - i
  {
    if i + |key| > |s| then -1
    else if s[i..i + |key|] == key then i
    else FindFrom(s, key, i + 1)
  }

  /** string_util::find: the empty keyword is never found. */
  function Find(s: seq<Byte>, key: seq<Byte>): (r: int)
    ensures r == -1 || 0 <= r <= |s| - |key|
  {
    if key == [] then -1 else FindFrom(s, key, 0)
  }

  lemma {:induction false} FindFromIsFirst(s: seq<Byte>, key: seq<Byte>, i: nat)
    ensures var r := FindFrom(s, key, i);
            && (r >= 0 ==> MatchAt(s, key, r))
            && forall j :: i <= j && (r == -1 || j < r) ==> !MatchAt(s, key, j)
    decreases |s| - i
  {
    if i + |key| <= |s| && s[i..i + |key|] != key {
      FindFromIsFirst(s, key, i + 1);
    }
  }

  /** find returns the first match, and -1 only when there is none or the keyword is empty. */
  lemma FindIsFirst(s: seq<Byte>, key: seq<Byte>)
    ensures var r := Find(s, key);
            && (key == [] ==> r == -1)
            && (r >= 0 ==> MatchAt(s, key, r))
            && (key != [] ==> forall j :: 0 <= j && (r == -1 || j < r) ==> !MatchAt(s, key, j))
  {
    FindFromIsFirst(s, key, 0);
  }

  lemma MatchAtPrefix(a: seq<Byte>, b: seq<Byte>, key: seq<Byte>, j: int)
    requires 0 <= j && j + |key| <= |a|
    ensures MatchAt(a + b, key, j) == MatchAt(a, key, j)
  {
    assert (a + b)[j..j + |key|] == a[j..j + |key|];
  }

  /** A found keyword is not moved by bytes that arrive later. */
  lemma FindStable(a: seq<Byte>, b: seq<Byte>, key: seq<Byte>)
    requires Find(a, key) >= 0
    ensures Find(a + b, key) == Find(a, key)
  {
    var i := Find(a, key);
    FindIsFirst(a, key);
    MatchAtPrefix(a, b, key, i);
    forall j | 0 <= j < i ensures !MatchAt(a + b, key, j) {
      MatchAtPrefix(a, b, key, j);
    }
    FindIs(a + b, key, i);
  }

  /** The first match is the only index with a match and none before it. */
  lemma FindIs(s: seq<Byte>, key: seq<Byte>, i: nat)
    requires key != [] && MatchAt(s, key, i)
    requires forall j :: 0 <= j < i ==> !MatchAt(s, key, j)
    ensures Find(s, key) == i
  {
    FindIsFirst(s, key);
  }

  /** A keyword whose first byte does not occur in the prefix is found right after it. */
  lemma FindAfter(prefix: seq<Byte>, key: seq<Byte>, rest: seq<Byte>)
    requires key != [] && key[0] !in prefix
    ensures Find(prefix + key + rest, key) == |prefix|
  {
    var s := prefix + key + rest;
    assert s[|prefix|..|prefix| + |key|] == key;
    forall j | 0 <= j < |prefix| ensures !MatchAt(s, key, j) {
      if j + |key| <= |s| {
        assert s[j..j + |key|][0] == prefix[j];
      }
    }
    FindIs(s, key, |prefix|);
  }

  lemma FindNone(s: seq<Byte>, key: seq<Byte>)
    requires key != [] && key[0] !in s
    ensures Find(s, key) == -1
  {
    forall i | 0 <= i && i + |key| <= |s| ensures !MatchAt(s, key, i) {
      assert s[i..i + |key|][0] == s[i];
    }
    FindIsFirst(s, key);
  }

  // ---------- split ----------

  /** string_util::split on a counted string: at most max parts when max > 0. */
  function SplitBy(s: seq<Byte>, sep: seq<Byte>, max: int): (parts: seq<seq<Byte>>)
    requires sep != []
    ensures |parts| >= 1 && (max > 0 ==> |parts| <= max)
    decreases |s|
  {
    if max == 1 then [s]
    else
      var i := Find(s, sep);
      if i < 0 then [s] else [s[..i]] + SplitBy(s[i + |sep|..], sep, max - 1)
  }

  /** Parts glued together with a separator between them. */
  function Join(parts: seq<seq<Byte>>, sep: seq<Byte>): (s: seq<Byte>)
    requires |parts| >= 1
  {
    if |parts| == 1 then parts[0] else parts[0] + sep + Join(parts[1..], sep)
  }

  lemma {:induction false} JoinSplit(s: seq<Byte>, sep: seq<Byte>, max: int)
    requires sep != []
    ensures Join(SplitBy(s, sep, max), sep) == s
    decreases |s|
  {
    if max != 1 {
      var i := Find(s, sep);
      if i >= 0 {
        var rest := s[i + |sep|..];
        JoinSplit(rest, sep, max - 1);
        var parts := SplitBy(s, sep, max);
        assert parts[1..] == SplitBy(rest, sep, max - 1);
        FindIsFirst(s, sep);
        assert s == s[..i] + s[i..i + |sep|] + rest;
      }
    }
  }

  /** Splitting undoes joining when no part contains the separator's first byte; any maximum that is
      not positive means no maximum. */
  lemma {:induction false} SplitJoin(parts: seq<seq<Byte>>, sep: seq<Byte>, max: int)
    requires |parts| >= 1 && sep != [] && max <= 0
    requires forall p :: p in parts ==> sep[0] !in p
    ensures SplitBy(Join(parts, sep), sep, max) == parts
    decreases |parts|
  {
    var first := parts[0];
    if |parts| == 1 {
      FindNone(first, sep);
    } else {
      var rest := Join(parts[1..], sep);
      var s := first + sep + rest;
      FindAfter(first, sep, rest);
      assert s[..|first|] == first && s[|first| + |sep|..] == rest;
      SplitJoin(parts[1..], sep, max - 1);
      assert SplitBy(s, sep, max) == [first] + parts[1..];
    }
  }

  /** One round of the split loop: the first part leaves the rest. */
  lemma SplitAdvance(done: seq<seq<Byte>>, rest: seq<Byte>, sep: seq<Byte>, left: int, whole: seq<seq<Byte>>)
    requires sep != [] && left != 1 && Find(rest, sep) >= 0
    requires done + SplitBy(rest, sep, left) == whole
    ensures done + [rest[..Find(rest, sep)]] + SplitBy(rest[Find(rest, sep) + |sep|..], sep, left - 1) == whole
  {
    var i := Find(rest, sep);
    assert SplitBy(rest, sep, left) == [rest[..i]] + SplitBy(rest[i + |sep|..], sep, left - 1);
  }

  /** string_util::split on an empty result; an empty separator gives no parts at all. */
  method Split(s: seq<Byte>, sep: seq<Byte>, maxSplit: int) returns (result: seq<seq<Byte>>)
    ensures sep == [] ==> result == []
    ensures sep != [] ==> result == SplitBy(s, sep, maxSplit) && Join(result, sep) == s
  {
    result := [];
    if |sep| == 0 {
      return;
    }
    var count, rest := 0, s;
    ghost var left, whole := maxSplit, SplitBy(s, sep, maxSplit);
    assert [] + whole == whole;
    while true
      invariant maxSplit > 0 ==> 0 <= count < maxSplit && left == maxSplit - count
      invariant maxSplit <= 0 ==> left <= 0
      invariant result + SplitBy(rest, sep, left) == whole
      decreases |rest|
    {
      if maxSplit > 0 {
        count := count + 1;
        if count >= maxSplit {
          break;
        }
      }
      var next := Find(rest, sep);
      if next < 0 {
        break;
      }
      SplitAdvance(result, rest, sep, left, whole);
      result, rest, left := result + [rest[..next]], rest[next + |sep|..], left - 1;
    }
    result := result + [rest];
    JoinSplit(s, sep, maxSplit);
  }

  // ---------- trim, case folding ----------

  predicate IsBlank(b: Byte) { b == 32 || b == 9 }

  function LTrim(s: seq<Byte>): (r: seq<Byte>)
    ensures r == [] || !IsBlank(r[0])
  {
    if s != [] && IsBlank(s[0]) then LTrim(s[1..]) else s
  }

  function RTrim(s: seq<Byte>): (r: seq<Byte>)
    ensures r == [] || !IsBlank(r[|r| - 1])
  {
    if s != [] && IsBlank(s[|s| - 1]) then RTrim(s[..|s| - 1]) else s
  }

  function Trim(s: seq<Byte>): (r: seq<Byte>) { RTrim(LTrim(s)) }

  /** No blank at either end. */
  predicate Trimmed(s: seq<Byte>) {
    s == [] || (!IsBlank(s[0]) && !IsBlank(s[|s| - 1]))
  }

  function LowerByte(b: Byte): (r: Byte) { if 65 <= b <= 90 then b + 32 else b }
  function UpperByte(b: Byte): (r: Byte) { if 97 <= b <= 122 then b - 32 else b }

  function Lower(s: seq<Byte>): (r: seq<Byte>)
    ensures |r| == |s|
  {
    seq(|s|, i requires 0 <= i < |s| => LowerByte(s[i]))
  }

  /** The body of string_util::toLower, which maps with toupper. */
  function Upper(s: seq<Byte>): (r: seq<Byte>)
    ensures |r| == |s|
  {
    seq(|s|, i requires 0 <= i < |s| => UpperByte(s[i]))
  }

  /** Upper and lower case identify the same bytes. */
  lemma SameFolding(a: seq<Byte>, b: seq<Byte>)
    ensures Upper(a) == Upper(b) <==> Lower(a) == Lower(b)
  {
    if Upper(a) == Upper(b) {
      forall i | 0 <= i < |a| ensures Lower(a)[i] == Lower(b)[i] {
        assert Upper(a)[i] == Upper(b)[i];
      }
    }
    if Lower(a) == Lower(b) {
      forall i | 0 <= i < |a| ensures Upper(a)[i] == Upper(b)[i] {
        assert Lower(a)[i] == Lower(b)[i];
      }
    }
  }

  /** string_util::stricmp. */
  predicate EqualNoCase(a: seq<Byte>, b: seq<Byte>) { Lower(a) == Lower(b) }

  /** Lexicographic order on lower-cased strings. */
  predicate LessNoCase(a: seq<Byte>, b: seq<Byte>) {
    if a == [] || b == [] then |a| < |b|
    else if LowerByte(a[0]) != LowerByte(b[0]) then LowerByte(a[0]) < LowerByte(b[0])
    else LessNoCase(a[1..], b[1..])
  }

  /** The comparison loop of CaseInsensitiveLess. */
  method CaseInsensitiveLess(lhs: seq<Byte>, rhs: seq<Byte>) returns (less: bool)
    ensures less == LessNoCase(lhs, rhs)
  {
    var size := if |lhs| <= |rhs| then |lhs| else |rhs|;
    for i := 0 to size
      invariant LessNoCase(lhs[i..], rhs[i..]) == LessNoCase(lhs, rhs)
    {
      var c1, c2 := LowerByte(lhs[i]), LowerByte(rhs[i]);
      if c1 != c2 {
        return c1 < c2;
      }
      assert lhs[i..][1..] == lhs[i + 1..] && rhs[i..][1..] == rhs[i + 1..];
    }
    less := |lhs| < |rhs|;
  }

  /** Two keys are the same map key under CaseInsensitiveLess exactly when they differ only in case. */
  lemma {:induction false} SameKeyIffEqualNoCase(a: seq<Byte>, b: seq<Byte>)
    ensures !LessNoCase(a, b) && !LessNoCase(b, a) <==> EqualNoCase(a, b)
    decreases |a|
  {
    if a != [] && b != [] {
      SameKeyIffEqualNoCase(a[1..], b[1..]);
      assert Lower(a) == [LowerByte(a[0])] + Lower(a[1..]);
      assert Lower(b) == [LowerByte(b[0])] + Lower(b[1..]);
      if EqualNoCase(a, b) {
        assert Lower(a[1..]) == Lower(a)[1..] == Lower(b)[1..] == Lower(b[1..]);
        assert LowerByte(a[0]) == Lower(a)[0] == Lower(b)[0] == LowerByte(b[0]);
      }
    } else if EqualNoCase(a, b) {
      assert |Lower(a)| == |Lower(b)|;
    }
  }

  lemma {:induction false} LessNoCaseTransitive(a: seq<Byte>, b: seq<Byte>, c: seq<Byte>)
    requires LessNoCase(a, b) && LessNoCase(b, c)
    ensures LessNoCase(a, c)
    decreases |a|
  {
    if a != [] && b != [] && c != [] && LowerByte(a[0]) == LowerByte(b[0]) == LowerByte(c[0]) {
      LessNoCaseTransitive(a[1..], b[1..], c[1..]);
    }
  }

  // ---------- C strings and numbers ----------

  /** What a C function sees of a string: the bytes before the first NUL. */
  function CStr(s: seq<Byte>): (r: seq<Byte>)
    ensures |r| <= |s| && r == s[..|r|]
    ensures 0 !in s ==> r == s
    ensures 0 !in r
  {
    if s == [] || s[0] == 0 then [] else [s[0]] + CStr(s[1..])
  }

  predicate IsDigit(b: Byte) { 48 <= b <= 57 }

  predicate IsSpace(b: Byte) { b == 32 || 9 <= b <= 13 }

  function SkipSpace(s: seq<Byte>): (r: seq<Byte>)
    ensures |r| <= |s|
  {
    if s != [] && IsSpace(s[0]) then SkipSpace(s[1..]) else s
  }

  /** Value of the leading decimal digits, continuing from acc. */
  function Digits(s: seq<Byte>, acc: nat): (v: nat) {
    if s == [] || !IsDigit(s[0]) then acc else Digits(s[1..], acc * 10 + (s[0] - 48))
  }

  /** strtol to 64 bits, which saturates. */
  function Strtol(text: seq<Byte>): (v: int)
    ensures -0x8000_0000_0000_0000 <= v < 0x8000_0000_0000_0000
  {
    var s := SkipSpace(CStr(text));
    if s == [] then 0
    else if s[0] == 45 then Saturated(0 - Digits(s[1..], 0))
    else if s[0] == 43 then Saturated(Digits(s[1..], 0))
    else Saturated(Digits(s, 0))
  }

  function Saturated(v: int): (r: int) {
    if v < -0x8000_0000_0000_0000 then -0x8000_0000_0000_0000
    else if v >= 0x8000_0000_0000_0000 then 0x7fff_ffff_ffff_ffff
    else v
  }

  /** atoi as the C library of Linux has it: strtol converted to int. */
  function Atoi(text: seq<Byte>): (v: int)
    ensures -0x8000_0000 <= v < 0x8000_0000
  {
    Int32(Strtol(text))
  }

  /** printf of a non-negative number with %d. */
  function ToDecimal(n: nat): (s: seq<Byte>)
    ensures |s| >= 1 && forall b :: b in s ==> IsDigit(b)
  {
    if n < 10 then [48 + n] else ToDecimal(n / 10) + [48 + n % 10]
  }

  lemma {:induction false} DigitsAppend(s: seq<Byte>, d: Byte, acc: nat)
    requires forall b :: b in s ==> IsDigit(b)
    requires IsDigit(d)
    ensures Digits(s + [d], acc) == Digits(s, acc) * 10 + (d - 48)
    decreases |s|
  {
    if s == [] {
      assert s + [d] == [d];
    } else {
      assert (s + [d])[1..] == s[1..] + [d];
      assert IsDigit(s[0]) by { assert s[0] in s; }
      DigitsAppend(s[1..], d, acc * 10 + (s[0] - 48));
    }
  }

  lemma {:induction false} DecimalDigits(n: nat)
    ensures Digits(ToDecimal(n), 0) == n
  {
    if n >= 10 {
      DecimalDigits(n / 10);
      DigitsAppend(ToDecimal(n / 10), 48 + n % 10, 0);
    }
  }

  /** A printed number is read back if and only if it is an int. */
  lemma AtoiDecimal(n: nat)
    ensures Atoi(ToDecimal(n)) == n <==> n < 0x8000_0000
  {
    DecimalDigits(n);
    var s := ToDecimal(n);
    assert IsDigit(s[0]) by { assert s[0] in s; }
    assert 0 !in s;
  }

  function HexValue(b: Byte): (v: int)
    ensures -1 <= v < 16
  {
    if IsDigit(b) then b - 48
    else if 97 <= b <= 102 then b - 87
    else if 65 <= b <= 70 then b - 55
    else -1
  }

  function HexDigits(s: seq<Byte>, acc: nat): (v: nat) {
    if s == [] || HexValue(s[0]) < 0 then acc else HexDigits(s[1..], acc * 16 + HexValue(s[0]))
  }

  /** sscanf("%x") into an unsigned int, in the same way: -1 when no number could be read. */
  function ScanHex(text: seq<Byte>): (v: int)
    ensures -1 <= v < 0x1_0000_0000
  {
    var s0 := SkipSpace(CStr(text));
    var negative := s0 != [] && s0[0] == 45;
    var s1 := if s0 != [] && (s0[0] == 45 || s0[0] == 43) then s0[1..] else s0;
    var s := if |s1| >= 2 && s1[0] == 48 && (s1[1] == 120 || s1[1] == 88) then s1[2..] else s1;
    if s == [] || HexValue(s[0]) < 0 then
      -1
    else
      var v := HexDigits(s, 0);
      (if v > 0xffff_ffff_ffff_ffff then 0xffff_ffff_ffff_ffff else if negative then 0 - v else v) % 0x1_0000_0000
  }
}
