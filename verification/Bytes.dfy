/** Byte strings, little-endian numbers and the hexadecimal text in which the pool keeps them. */
module Bytes {

  type byte = b: int | 0 <= b < 256

  /** The output of the double hash; the hash itself is a parameter wherever it is used. */
  type Digest = d: seq<byte> | |d| == 32 witness seq(32, _ => 0)

  type Hash = seq<byte> -> Digest

  datatype Option<+T> = None | Some(value: T)

  datatype Result<+T, +E> = Ok(value: T) | Err(error: E)

  function Zeros(n: nat): (z: seq<byte>)
    ensures |z| == n
  {
    seq(n, _ => 0)
  }

  // ---------- little-endian numbers ----------

  function Pow256(n: nat): (p: nat)
    ensures p >= 1
  {
    if n == 0 then 1 else 256 * Pow256(n - 1)
  }

  function Pow2(n: nat): (p: nat)
    ensures p >= 1
  {
    if n == 0 then 1 else 2 * Pow2(n - 1)
  }

  lemma {:induction false} Pow2Adds(a: nat, b: nat)
    ensures Pow2(a + b) == Pow2(a) * Pow2(b)
  {
    if b > 0 {
      Pow2Adds(a, b - 1);
    }
  }

  lemma {:induction false} Pow2Monotone(a: nat, b: nat)
    requires a <= b
    ensures Pow2(a) <= Pow2(b)
    decreases b - a
  {
    if a < b {
      Pow2Monotone(a + 1, b);
    }
  }

  lemma Pow2Values()
    ensures Pow2(0) == 1 && Pow2(8) == 0x100 && Pow2(16) == 0x10000 && Pow2(24) == 0x1000000
    ensures Pow2(31) == 0x80000000
  {
    assert Pow2(8) == 0x100;
    Pow2Adds(8, 8);
    Pow2Adds(16, 8);
    assert Pow2(7) == 0x80;
    Pow2Adds(24, 7);
  }

  function Le(value: nat, width: nat): (b: seq<byte>)
    ensures |b| == width
  {
    if width == 0 then [] else [value % 256] + Le(value / 256, width - 1)
  }

  function LeValue(b: seq<byte>): nat {
    if b == [] then 0 else b[0] + 256 * LeValue(b[1..])
  }

  lemma {:induction false} LeRoundTrip(value: nat, width: nat)
    requires value < Pow256(width)
    ensures LeValue(Le(value, width)) == value
  {
    if width > 0 {
      LeRoundTrip(value / 256, width - 1);
      assert Le(value, width)[1..] == Le(value / 256, width - 1);
    }
  }

  lemma {:induction false} LeValueBound(b: seq<byte>)
    ensures LeValue(b) < Pow256(|b|)
  {
    if b != [] {
      LeValueBound(b[1..]);
    }
  }

  lemma {:induction false} LeValueSnoc(b: seq<byte>, last: byte)
    ensures LeValue(b + [last]) == LeValue(b) + Pow256(|b|) * last
  {
    if b == [] {
      assert LeValue([last]) == last + 256 * LeValue([last][1..]);
      assert b + [last] == [last];
    } else {
      LeValueSnoc(b[1..], last);
      assert (b + [last])[1..] == b[1..] + [last];
      assert Pow256(|b|) * last == 256 * (Pow256(|b| - 1) * last);
    }
  }

  // ---------- hexadecimal text ----------

  function HexDigit(n: int): (c: char)
    requires 0 <= n < 16
    ensures HexValue(c) == n
  {
    if n < 10 then '0' + n as char else 'a' + (n - 10) as char
  }

  /** The value of a hexadecimal digit of either case, or -1. */
  function HexValue(c: char): (v: int)
    ensures -1 <= v < 16
  {
    if '0' <= c <= '9' then c as int - '0' as int
    else if 'a' <= c <= 'f' then c as int - 'a' as int + 10
    else if 'A' <= c <= 'F' then c as int - 'A' as int + 10
    else -1
  }

  ghost predicate IsHex(s: string) {
    forall i :: 0 <= i < |s| ==> HexValue(s[i]) >= 0
  }

  function ToHex(b: seq<byte>): (s: string)
    ensures |s| == 2 * |b|
  {
    seq(2 * |b|, i requires 0 <= i < 2 * |b| =>
      HexDigit(if i % 2 == 0 then b[i / 2] / 16 else b[i / 2] % 16))
  }

  /** Decoding stops, without an error, at the first pair that is not two hexadecimal digits. */
  function FromHex(s: string): seq<byte> {
    if |s| < 2 || HexValue(s[0]) < 0 || HexValue(s[1]) < 0 then []
    else [16 * HexValue(s[0]) + HexValue(s[1])] + FromHex(s[2..])
  }

  lemma ToHexConcat(a: seq<byte>, b: seq<byte>)
    ensures ToHex(a + b) == ToHex(a) + ToHex(b)
  {
    var n := 2 * |a|;
    forall i | 0 <= i < 2 * |a + b|
      ensures ToHex(a + b)[i] == (ToHex(a) + ToHex(b))[i]
    {
      if i >= n {
        assert (i - n) / 2 == i / 2 - |a| && (i - n) % 2 == i % 2;
      }
    }
  }

  lemma FromHexOfByte(b: byte, rest: string)
    ensures FromHex(ToHex([b]) + rest) == [b] + FromHex(rest)
  {
    var s := ToHex([b]) + rest;
    assert s[2..] == rest;
  }

  lemma ThreeStrings<T>(a: seq<T>, b: seq<T>, c: seq<T>)
    ensures a + (b + c) == (a + b) + c
  {
  }

  lemma {:induction false} FromHexOfToHex(b: seq<byte>, rest: string)
    ensures FromHex(ToHex(b) + rest) == b + FromHex(rest)
  {
    if b == [] {
      assert ToHex(b) + rest == rest;
    } else {
      var first, others := b[..1], b[1..];
      ToHexConcat(first, others);
      ThreeStrings(ToHex(first), ToHex(others), rest);
      FromHexOfByte(b[0], ToHex(others) + rest);
      FromHexOfToHex(others, rest);
      ThreeStrings(first, others, FromHex(rest));
      assert first + others == b && first == [b[0]];
    }
  }

  lemma {:induction false} FromHexOfHex(s: string)
    requires IsHex(s) && |s| % 2 == 0
    ensures |FromHex(s)| == |s| / 2
  {
    if |s| >= 2 {
      FromHexOfHex(s[2..]);
    }
  }

  lemma FromHexStep(s: string)
    requires |s| >= 2 && HexValue(s[0]) >= 0 && HexValue(s[1]) >= 0
    ensures FromHex(s) == [16 * HexValue(s[0]) + HexValue(s[1])] + FromHex(s[2..])
  {
  }

  lemma {:induction false} FromHexConcat(s: string, rest: string)
    requires IsHex(s) && |s| % 2 == 0
    ensures FromHex(s + rest) == FromHex(s) + FromHex(rest)
  {
    if |s| == 0 {
      assert s + rest == rest;
    } else {
      var tail := s[2..];
      assert (s + rest)[2..] == tail + rest;
      FromHexStep(s);
      FromHexStep(s + rest);
      FromHexConcat(tail, rest);
      ThreeStrings(FromHex(s)[..1], FromHex(tail), FromHex(rest));
    }
  }

  // ---------- hexadecimal numbers ----------

  predicate IsSpace(c: char) {
    || '\t' <= c <= '\r' || c == ' ' || c == '\U{A0}' || c == '\U{1680}' || '\U{2000}' <= c <= '\U{200A}'
    || c == '\U{2028}' || c == '\U{2029}' || c == '\U{202F}' || c == '\U{205F}' || c == '\U{3000}' || c == '\U{FEFF}'
  }

  function SkipSpaces(s: string): string {
    if s != "" && IsSpace(s[0]) then SkipSpaces(s[1..]) else s
  }

  /** The number that the digits at the front of a text spell. */
  function HexPrefix(s: string, acc: nat := 0): nat {
    if s == "" || HexValue(s[0]) < 0 then acc else HexPrefix(s[1..], 16 * acc + HexValue(s[0]))
  }

  /** `Number.parseInt(s, 16)`, or 0: spaces, a sign and `0x` may come first, and anything may follow the digits. */
  function ParseHexInt(s: string): int {
    var text := SkipSpaces(s);
    var unsigned := if text != "" && (text[0] == '-' || text[0] == '+') then text[1..] else text;
    var digits := if |unsigned| >= 2 && unsigned[0] == '0' && (unsigned[1] == 'x' || unsigned[1] == 'X') then unsigned[2..] else unsigned;
    var n: int := HexPrefix(digits);
    if text != "" && text[0] == '-' then -n else n
  }

  lemma ParseHexIntOfDigits(s: string)
    requires IsHex(s)
    ensures ParseHexInt(s) == HexPrefix(s)
  {
    if s != "" {
      assert HexValue(s[0]) >= 0;
      if |s| >= 2 {
        assert HexValue(s[1]) >= 0;
      }
    }
  }

  lemma {:induction false} HexPrefixStops(s: string, rest: string, acc: nat)
    requires IsHex(s) && (rest == "" || HexValue(rest[0]) < 0)
    ensures HexPrefix(s + rest, acc) == HexPrefix(s, acc)
    decreases |s|
  {
    if s == "" {
      assert s + rest == rest;
    } else {
      HexPrefixStops(s[1..], rest, 16 * acc + HexValue(s[0]));
      assert (s + rest)[1..] == s[1..] + rest;
    }
  }

  /** What may stand around the digits: a sign, `0x`, spaces in front and anything behind. */
  lemma ParseHexIntForms(s: string, space: char, rest: string)
    requires IsHex(s) && IsSpace(space) && (rest == "" || (HexValue(rest[0]) < 0 && rest[0] != 'x' && rest[0] != 'X'))
    ensures ParseHexInt("-" + s) == 0 - HexPrefix(s) && ParseHexInt("+" + s) == HexPrefix(s)
    ensures ParseHexInt("0x" + s) == ParseHexInt("0X" + s) == HexPrefix(s)
    ensures ParseHexInt([space] + s) == HexPrefix(s)
    ensures s != "" ==> ParseHexInt(s + rest) == HexPrefix(s)
    ensures ParseHexInt("") == 0
  {
    SignedDigits(s);
    ParseHexIntOfDigits(s);
    PrefixedDigits(s);
    SpacedDigits(s, space);
    if s != "" {
      HexPrefixStops(s, rest, 0);
      DigitsBefore(s, rest);
    }
  }

  lemma SignedDigits(s: string)
    requires IsHex(s)
    ensures ParseHexInt("-" + s) == 0 - HexPrefix(s) && ParseHexInt("+" + s) == HexPrefix(s)
  {
    assert ("-" + s)[1..] == s && ("+" + s)[1..] == s;
    assert |s| >= 2 ==> HexValue(s[1]) >= 0;
  }

  lemma SpacedDigits(s: string, space: char)
    requires IsSpace(space)
    ensures ParseHexInt([space] + s) == ParseHexInt(s)
  {
    assert ([space] + s)[1..] == s;
  }

  lemma PrefixedDigits(s: string)
    ensures ParseHexInt("0x" + s) == ParseHexInt("0X" + s) == HexPrefix(s)
  {
    assert ("0x" + s)[2..] == s && ("0X" + s)[2..] == s;
  }

  lemma DigitsBefore(s: string, rest: string)
    requires IsHex(s) && s != "" && (rest == "" || (rest[0] != 'x' && rest[0] != 'X'))
    ensures ParseHexInt(s + rest) == HexPrefix(s + rest)
  {
    var t := s + rest;
    assert HexValue(t[0]) >= 0;
    assert |t| >= 2 ==> t[1] == (if |s| >= 2 then s[1] else rest[0]);
    assert |s| >= 2 ==> HexValue(s[1]) >= 0;
  }

  /** `n.toString(16)` */
  function NatToHex(n: nat): (s: string)
    ensures |s| >= 1
  {
    if n < 16 then [HexDigit(n)] else NatToHex(n / 16) + [HexDigit(n % 16)]
  }

  lemma {:induction false} HexPrefixSnoc(s: string, last: char, acc: nat)
    requires IsHex(s) && HexValue(last) >= 0
    ensures HexPrefix(s + [last], acc) == 16 * HexPrefix(s, acc) + HexValue(last)
    decreases |s|
  {
    if s == "" {
      assert s + [last] == [last] && [last][1..] == "";
    } else {
      HexPrefixSnoc(s[1..], last, 16 * acc + HexValue(s[0]));
      assert (s + [last])[1..] == s[1..] + [last];
    }
  }

  /** A number is read back from its text. */
  lemma {:induction false} ParseOfNatToHex(n: nat)
    ensures IsHex(NatToHex(n)) && ParseHexInt(NatToHex(n)) == HexPrefix(NatToHex(n)) == n
  {
    if n >= 16 {
      ParseOfNatToHex(n / 16);
      HexPrefixSnoc(NatToHex(n / 16), HexDigit(n % 16), 0);
    } else {
      assert NatToHex(n)[1..] == "";
    }
    ParseHexIntOfDigits(NatToHex(n));
  }

  /** Digits in front weigh a power of sixteen more. */
  lemma {:induction false} HexPrefixFrom(s: string, acc: nat)
    requires IsHex(s)
    ensures HexPrefix(s, acc) == acc * Pow2(4 * |s|) + HexPrefix(s)
    ensures HexPrefix(s) < Pow2(4 * |s|)
    decreases |s|
  {
    if s != "" {
      var n := |s| - 1;
      var front := s[..n];
      assert s == front + [s[n]];
      HexPrefixFrom(front, acc);
      HexPrefixSnoc(front, s[n], acc);
      HexPrefixSnoc(front, s[n], 0);
      FourBitsMore(n);
      SixteenTimes(acc, Pow2(4 * n), HexPrefix(front), HexValue(s[n]));
    }
  }

  lemma FourBitsMore(n: nat)
    ensures Pow2(4 * (n + 1)) == 16 * Pow2(4 * n)
  {
    Pow2Adds(4 * n, 4);
    assert Pow2(4) == 16;
  }

  lemma SixteenTimes(acc: nat, power: nat, value: nat, digit: nat)
    ensures 16 * (acc * power + value) + digit == acc * (16 * power) + (16 * value + digit)
  {
  }

  /** Eight digits fit one word. */
  lemma WordOfDigits(s: string)
    requires IsHex(s) && |s| <= 8
    ensures 0 <= ParseHexInt(s) < 0x1_0000_0000
  {
    ParseHexIntOfDigits(s);
    HexPrefixFrom(s, 0);
    Pow2Monotone(4 * |s|, 32);
    Pow2Of32();
  }

  lemma Pow2Of32()
    ensures Pow2(32) == 0x1_0000_0000
  {
    Pow2Values();
    Pow2Adds(31, 1);
  }

  /** A ninth digit in front does not reach the word. */
  lemma NinthDigitIsLost(s: string, c: char)
    requires IsHex(s) && |s| >= 8 && HexValue(c) >= 0
    ensures IsHex([c] + s) && ParseHexInt([c] + s) % 0x1_0000_0000 == ParseHexInt(s) % 0x1_0000_0000
  {
    var longer := [c] + s;
    forall i | 0 <= i < |longer| ensures HexValue(longer[i]) >= 0 {
      assert i > 0 ==> longer[i] == s[i - 1];
    }
    ParseHexIntOfDigits(s);
    ParseHexIntOfDigits(longer);
    assert longer[1..] == s;
    HighDigitsAreLost(s, HexValue(c));
  }

  lemma HighDigitsAreLost(s: string, acc: nat)
    requires IsHex(s) && |s| >= 8
    ensures HexPrefix(s, acc) % 0x1_0000_0000 == HexPrefix(s) % 0x1_0000_0000
  {
    HexPrefixFrom(s, acc);
    Pow2Adds(32, 4 * |s| - 32);
    Pow2Of32();
    WholeWords(HexPrefix(s), acc, Pow2(4 * |s| - 32));
  }

  lemma WholeWords(value: nat, acc: nat, words: nat)
    ensures (acc * (0x1_0000_0000 * words) + value) % 0x1_0000_0000 == value % 0x1_0000_0000
  {
    var n := acc * words;
    assert acc * (0x1_0000_0000 * words) == 0x1_0000_0000 * n;
    assert (0x1_0000_0000 * n + value) % 0x1_0000_0000 == value % 0x1_0000_0000;
  }

  /** `n.toString(16)` of a number that may be negative. */
  function IntToHex(n: int): string {
    if n < 0 then "-" + NatToHex(-n) else NatToHex(n)
  }

  /** `s.padStart(width, '0')` */
  function PadStart(s: string, width: nat): (p: string)
    ensures |p| == if |s| < width then width else |s|
  {
    if |s| < width then seq(width - |s|, _ => '0') + s else s
  }

  lemma {:induction false} HexPrefixOfPadded(zeros: nat, s: string)
    ensures HexPrefix(seq(zeros, _ => '0') + s) == HexPrefix(s)
    decreases zeros
  {
    var padded := seq(zeros, _ => '0') + s;
    if zeros == 0 {
      assert padded == s;
    } else {
      assert padded[1..] == seq(zeros - 1, _ => '0') + s;
      HexPrefixOfPadded(zeros - 1, s);
    }
  }

  lemma {:induction false} TextAtMost(n: nat, digits: nat)
    requires digits >= 1 && n < Pow2(4 * digits)
    ensures |NatToHex(n)| <= digits
    decreases digits
  {
    if n >= 16 {
      FourBitsMore(digits - 1);
      assert digits > 1;
      TextAtMost(n / 16, digits - 1);
    }
  }

  lemma {:induction false} TextAtLeast(n: nat, digits: nat)
    requires n >= Pow2(4 * digits)
    ensures |NatToHex(n)| > digits
    decreases digits
  {
    if digits > 0 {
      FourBitsMore(digits - 1);
      if digits > 1 {
        TextAtLeast(n / 16, digits - 1);
      }
    }
  }

  /** Reads a word of exactly eight digits. */
  ghost function ReadWord(s: string): Option<nat> {
    if |s| == 8 && IsHex(s) then Some(HexPrefix(s)) else None
  }

  /** Unpadded text of a word is read back as eight digits exactly when its top digit is not zero. */
  lemma UnpaddedWordReadBackIff(word: nat)
    requires word < 0x1_0000_0000
    ensures ReadWord(NatToHex(word)) == Some(word) <==> word >= 0x1000_0000
  {
    ParseOfNatToHex(word);
    Pow2Of32();
    Pow2Adds(28, 4);
    assert Pow2(4) == 16;
    TextAtMost(word, 8);
    if word >= 0x1000_0000 {
      TextAtLeast(word, 7);
    } else {
      TextAtMost(word, 7);
    }
  }

  /** Padded text always is. */
  lemma PaddedWordReadBack(word: nat)
    requires word < 0x1_0000_0000
    ensures ReadWord(PadStart(NatToHex(word), 8)) == Some(word)
  {
    var s := NatToHex(word);
    ParseOfNatToHex(word);
    Pow2Of32();
    TextAtMost(word, 8);
    PaddingKeepsTheNumber(s);
  }

  lemma PaddingKeepsTheNumber(s: string)
    requires |s| <= 8 && IsHex(s)
    ensures var padded := PadStart(s, 8);
      |padded| == 8 && IsHex(padded) && HexPrefix(padded) == HexPrefix(s)
  {
    if |s| < 8 {
      HexPrefixOfPadded(8 - |s|, s);
      PaddedIsHex(8 - |s|, s);
    }
  }

  lemma PaddedIsHex(zeros: nat, s: string)
    requires IsHex(s)
    ensures IsHex(seq(zeros, _ => '0') + s)
  {
    var padded := seq(zeros, _ => '0') + s;
    forall i | 0 <= i < |padded| ensures HexValue(padded[i]) >= 0 {
      assert padded[i] == if i < zeros then '0' else s[i - zeros];
    }
  }

  /** Lower-case digits only, so that a value has one spelling of each length. */
  ghost predicate IsLowerHex(s: string) {
    IsHex(s) && ToLower(s) == s
  }

  lemma LowerDigits(c: char, d: char)
    requires HexValue(c) == HexValue(d) >= 0 && LowerChar(c) == c && LowerChar(d) == d
    ensures c == d
  {
  }

  /** Equally long lower-case texts of one number are one text. */
  lemma {:induction false} HexPrefixInjective(s: string, t: string)
    requires IsLowerHex(s) && IsLowerHex(t) && |s| == |t| && HexPrefix(s) == HexPrefix(t)
    ensures s == t
    decreases |s|
  {
    if s != "" {
      var n := |s| - 1;
      assert s == s[..n] + [s[n]] && t == t[..n] + [t[n]];
      HexPrefixSnoc(s[..n], s[n], 0);
      HexPrefixSnoc(t[..n], t[n], 0);
      assert ToLower(s)[n] == LowerChar(s[n]) && ToLower(t)[n] == LowerChar(t[n]);
      assert ToLower(s)[..n] == ToLower(s[..n]) && ToLower(t)[..n] == ToLower(t[..n]);
      LowerDigits(s[n], t[n]);
      HexPrefixInjective(s[..n], t[..n]);
    }
  }

  /** Equally long lower-case texts of the same bytes are one text. */
  lemma {:induction false} FromHexInjective(s: string, t: string)
    requires IsLowerHex(s) && IsLowerHex(t) && |s| == |t| && |s| % 2 == 0 && FromHex(s) == FromHex(t)
    ensures s == t
    decreases |s|
  {
    if s != "" {
      assert FromHex(s)[0] == FromHex(t)[0] && FromHex(s)[1..] == FromHex(t)[1..];
      assert ToLower(s)[0] == LowerChar(s[0]) && ToLower(t)[0] == LowerChar(t[0]);
      assert ToLower(s)[1] == LowerChar(s[1]) && ToLower(t)[1] == LowerChar(t[1]);
      assert ToLower(s)[2..] == ToLower(s[2..]) && ToLower(t)[2..] == ToLower(t[2..]);
      LowerDigits(s[0], t[0]);
      LowerDigits(s[1], t[1]);
      FromHexInjective(s[2..], t[2..]);
      assert s == s[..2] + s[2..] && t == t[..2] + t[2..];
    }
  }

  // ---------- JavaScript string and number operations ----------

  /** `s.slice(0, end)`: a negative end counts from the back. */
  function SliceTo(s: string, end: int): string {
    if end > |s| then s
    else if end >= 0 then s[..end]
    else if |s| + end >= 0 then s[..|s| + end]
    else ""
  }

  /** `s.substring(0, end)`: a negative end is taken as zero. */
  function SubstringTo(s: string, end: int): string {
    if end > |s| then s else if end >= 0 then s[..end] else ""
  }

  ghost predicate MatchesAt(text: string, part: string, at: int) {
    0 <= at <= |text| - |part| && text[at..at + |part|] == part
  }

  ghost predicate FirstMatch(text: string, part: string, at: int) {
    MatchesAt(text, part, at) && forall k :: 0 <= k < at ==> !MatchesAt(text, part, k)
  }

  lemma {:induction false} FirstMatchExists(text: string, part: string, k: int)
    requires MatchesAt(text, part, k)
    ensures exists at :: FirstMatch(text, part, at)
    decreases k
  {
    if j :| 0 <= j < k && MatchesAt(text, part, j) {
      FirstMatchExists(text, part, j);
    } else {
      assert FirstMatch(text, part, k);
    }
  }

  /** `text.indexOf(part)`: the first match, or -1. */
  ghost function IndexOf(text: string, part: string): (at: int)
    ensures at >= 0 ==> FirstMatch(text, part, at)
    ensures at < 0 ==> at == -1 && forall k :: !MatchesAt(text, part, k)
  {
    if k :| MatchesAt(text, part, k) then
      FirstMatchExists(text, part, k);
      var at :| FirstMatch(text, part, at);
      at
    else -1
  }

  method FindFirst(text: string, part: string) returns (at: int)
    ensures at == IndexOf(text, part)
  {
    at := 0;
    while at + |part| <= |text|
      invariant 0 <= at
      invariant forall k :: 0 <= k < at ==> !MatchesAt(text, part, k)
    {
      if text[at..at + |part|] == part {
        assert FirstMatch(text, part, at);
        return;
      }
      at := at + 1;
    }
    at := -1;
  }

  /** The low 32 bits of an integer. */
  function Word(n: int): (w: nat)
    ensures w < 0x1_0000_0000
    ensures n == 0 ==> w == 0
  {
    n % 0x1_0000_0000
  }

  function LowerChar(c: char): char {
    if 'A' <= c <= 'Z' then 'a' + (c - 'A') else c
  }

  function ToLower(s: string): (l: string)
    ensures |l| == |s|
  {
    seq(|s|, i requires 0 <= i < |s| => LowerChar(s[i]))
  }

  lemma {:induction false} FromHexIgnoresCase(s: string)
    ensures FromHex(ToLower(s)) == FromHex(s)
  {
    if |s| >= 2 {
      FromHexIgnoresCase(s[2..]);
      assert ToLower(s)[2..] == ToLower(s[2..]);
    }
  }

  lemma IsHexIgnoresCase(s: string)
    ensures IsHex(ToLower(s)) <==> IsHex(s)
  {
    forall i | 0 <= i < |s|
      ensures HexValue(ToLower(s)[i]) == HexValue(s[i])
    {}
    if IsHex(ToLower(s)) {
      forall i | 0 <= i < |s| ensures HexValue(s[i]) >= 0 {
        assert HexValue(ToLower(s)[i]) >= 0;
      }
    }
  }

  function Bit(x: nat, i: nat): bool
    decreases i
  {
    if i == 0 then x % 2 == 1 else Bit(x / 2, i - 1)
  }

  /** Exclusive or of two 32-bit words, bit by bit. */
  function Xor(a: nat, b: nat, bits: nat := 32): (r: nat)
    decreases bits
  {
    if bits == 0 then 0
    else (if a % 2 == b % 2 then 0 else 1) + 2 * Xor(a / 2, b / 2, bits - 1)
  }

  lemma {:induction false} XorFlipsBits(a: nat, b: nat, bits: nat)
    ensures Xor(a, b, bits) < Pow2(bits)
    ensures forall i :: 0 <= i < bits ==> (Bit(Xor(a, b, bits), i) <==> Bit(a, i) != Bit(b, i))
    decreases bits
  {
    if bits > 0 {
      var x, half := Xor(a, b, bits), Xor(a / 2, b / 2, bits - 1);
      XorFlipsBits(a / 2, b / 2, bits - 1);
      assert x / 2 == half && x % 2 == (if a % 2 == b % 2 then 0 else 1);
      forall i | 0 <= i < bits ensures Bit(x, i) <==> Bit(a, i) != Bit(b, i) {
        if i > 0 {
          HalvedBit(x, i);
          HalvedBit(a, i);
          HalvedBit(b, i);
          assert Bit(half, i - 1) <==> Bit(a / 2, i - 1) != Bit(b / 2, i - 1);
        }
      }
    }
  }

  lemma HalvedBit(x: nat, i: nat)
    requires i > 0
    ensures Bit(x, i) == Bit(x / 2, i - 1)
  {
  }

  /** Flipping the same bits again undoes it. */
  lemma {:induction false} XorTwice(a: nat, b: nat, bits: nat)
    requires b < Pow2(bits)
    ensures Xor(a, Xor(a, b, bits), bits) == b
    decreases bits
  {
    if bits > 0 {
      var x, half := Xor(a, b, bits), Xor(a / 2, b / 2, bits - 1);
      assert x / 2 == half && x % 2 == (if a % 2 == b % 2 then 0 else 1);
      XorTwice(a / 2, b / 2, bits - 1);
    }
  }

  lemma {:induction false} XorBelow(a: nat, b: nat, bits: nat)
    ensures Xor(a, b, bits) < Pow2(bits)
    decreases bits
  {
    if bits > 0 {
      XorBelow(a / 2, b / 2, bits - 1);
    }
  }

  lemma {:induction false} XorNothing(a: nat, b: nat, bits: nat)
    requires a < Pow2(bits) && b == 0
    ensures Xor(a, b, bits) == a
    decreases bits
  {
    if bits > 0 {
      XorNothing(a / 2, b / 2, bits - 1);
    }
  }
}
