/** IPv4 addresses as text: the dotted form, the two IPv4-mapped forms, and the numbers they stand for. */
module IpAddress {
  import opened Wrappers
  import opened Text
  import Bits
  import Decimal

  const DOT: char := '.'
  const TWO_32: nat := 0x1_0000_0000

  /** x >>> 0 */
  function ToUint32(x: int): nat {
    x % TWO_32
  }

  // ---------------------------------------------------------------- ipv4ToInt

  function Octet(part: string): Option<nat> {
    match ParseInt(part)
    case None => None
    case Some(n) => if n < 0 || n > 255 || Decimal.ToString(n) != part then None else Some(n)
  }

  function FromOctets(parts: seq<string>, result: nat): Option<nat> {
    if parts == [] then Some(result)
    else
      match Octet(parts[0])
      case None => None
      case Some(n) => FromOctets(parts[1..], ToUint32(result * 256 + n))
  }

  function Ipv4(ip: string): Option<nat> {
    var parts := Split(ip, DOT);
    if |parts| != 4 then None else FromOctets(parts, 0)
  }

  method Ipv4ToInt(ip: string) returns (r: Option<nat>)
    ensures r == Ipv4(ip)
  {
    hide Split, ParseInt, Decimal.ToString, ToUint32, FromOctets, Octet;
    var parts := Split(ip, DOT);
    if |parts| != 4 { return None; }
    var result: nat := 0;
    var i := 0;
    assert parts[0..] == parts;
    while i < 4
      invariant 0 <= i <= 4
      invariant FromOctets(parts, 0) == FromOctets(parts[i..], result)
    {
      FromOctetsUnfolds(parts, i, result);
      OctetUnfolds(parts[i]);
      var octet := ParseInt(parts[i]);
      if octet.None? || octet.value < 0 || octet.value > 255 || Decimal.ToString(octet.value) != parts[i] {
        return None;
      }
      result := ToUint32(result * 256 + octet.value);
      i := i + 1;
    }
    FromOctetsEnds(parts, result);
    return Some(result);
  }

  lemma OctetUnfolds(part: string)
    ensures Octet(part) == match ParseInt(part)
                           case None => None
                           case Some(n) => if n < 0 || n > 255 || Decimal.ToString(n) != part then None else Some(n)
  {
  }

  lemma {:induction false} FromOctetsEnds(p: seq<string>, result: nat)
    ensures FromOctets(p[|p|..], result) == Some(result)
  {
  }

  function Quad(a: nat, b: nat, c: nat, d: nat): string {
    Decimal.ToString(a) + [DOT] + Decimal.ToString(b) + [DOT] + Decimal.ToString(c) + [DOT] + Decimal.ToString(d)
  }

  function Dotted(x: nat): string {
    Quad(x / 0x100_0000 % 256, x / 0x1_0000 % 256, x / 256 % 256, x % 256)
  }

  lemma {:induction false} OctetIff(part: string, n: nat)
    ensures Octet(part) == Some(n) <==> n <= 255 && part == Decimal.ToString(n)
  {
    ParseIntRoundTrip(n);
  }

  lemma {:induction false} DigitsHoldNo(n: nat, c: char)
    requires !Decimal.IsDigit(c)
    ensures c !in Decimal.ToString(n)
  {
    Decimal.ToStringRoundTrip(n);
  }

  predicate AreOctets(p: seq<string>) {
    forall i :: 0 <= i < |p| ==> Octet(p[i]).Some?
  }

  function OfFour(a: nat, b: nat, c: nat, d: nat): nat {
    ((a * 256 + b) * 256 + c) * 256 + d
  }

  lemma {:induction false} FromOctetsUnfolds(p: seq<string>, i: nat, result: nat)
    requires i < |p|
    ensures FromOctets(p[i..], result)
            == if Octet(p[i]).None? then None else FromOctets(p[i + 1..], ToUint32(result * 256 + Octet(p[i]).value))
  {
    hide ToUint32, Octet;
    assert p[i..][0] == p[i] && p[i..][1..] == p[i + 1..];
  }

  lemma FourOctets(p: seq<string>)
    requires |p| == 4
    ensures AreOctets(p) <==> Octet(p[0]).Some? && Octet(p[1]).Some? && Octet(p[2]).Some? && Octet(p[3]).Some?
  {
    hide Octet;
  }

  lemma Shifted(r: nat, part: string)
    requires r < 0x100_0000 && Octet(part).Some?
    ensures ToUint32(r * 256 + Octet(part).value) == r * 256 + Octet(part).value
    ensures Octet(part).value <= 255
  {
    hide ParseInt, Decimal.ToString;
  }

  lemma {:induction false} FromFourOctets(p: seq<string>)
    requires |p| == 4
    ensures FromOctets(p, 0)
            == if AreOctets(p) then
                 Some(OfFour(Octet(p[0]).value, Octet(p[1]).value, Octet(p[2]).value, Octet(p[3]).value))
               else None
  {
    hide ToUint32, Octet, FromOctets, AreOctets;
    assert p[0..] == p;
    FromOctetsEnds(p, 0);
    FourOctets(p);
    FromOctetsUnfolds(p, 0, 0);
    if Octet(p[0]).Some? {
      Shifted(0, p[0]);
      var a := Octet(p[0]).value;
      FromOctetsUnfolds(p, 1, a);
      if Octet(p[1]).Some? {
        Shifted(a, p[1]);
        var b := a * 256 + Octet(p[1]).value;
        FromOctetsUnfolds(p, 2, b);
        if Octet(p[2]).Some? {
          Shifted(b, p[2]);
          var c := b * 256 + Octet(p[2]).value;
          FromOctetsUnfolds(p, 3, c);
          if Octet(p[3]).Some? {
            Shifted(c, p[3]);
            FromOctetsEnds(p, c * 256 + Octet(p[3]).value);
          }
        }
      }
    }
  }

  lemma {:induction false} QuadSplits(a: nat, b: nat, c: nat, d: nat)
    ensures Split(Quad(a, b, c, d), DOT) ==
            [Decimal.ToString(a), Decimal.ToString(b), Decimal.ToString(c), Decimal.ToString(d)]
    ensures Join([Decimal.ToString(a), Decimal.ToString(b), Decimal.ToString(c), Decimal.ToString(d)], DOT) ==
            Quad(a, b, c, d)
  {
    DigitsHoldNo(a, DOT);
    DigitsHoldNo(b, DOT);
    DigitsHoldNo(c, DOT);
    DigitsHoldNo(d, DOT);
    hide Decimal.ToString, Split;
    var parts := [Decimal.ToString(a), Decimal.ToString(b), Decimal.ToString(c), Decimal.ToString(d)];
    FourJoin(parts);
    SplitOfJoin(parts, DOT);
  }

  lemma {:induction false} FourJoin(p: seq<string>)
    requires |p| == 4
    ensures Join(p, DOT) == p[0] + [DOT] + p[1] + [DOT] + p[2] + [DOT] + p[3]
  {
    var (r1, r2, r3) := (p[1..], p[2..], p[3..]);
    assert r1[1..] == r2 && r2[1..] == r3;
    assert Join(r3, DOT) == p[3];
    assert Join(r2, DOT) == p[2] + [DOT] + p[3];
    assert Join(r1, DOT) == p[1] + [DOT] + Join(r2, DOT);
  }

  lemma Bytes(x: nat)
    ensures x / 0x1_0000 == x / 256 / 256 && x / 0x100_0000 == x / 256 / 256 / 256
  {
  }

  lemma OctetsOfNumber(a: nat, b: nat, c: nat, d: nat)
    requires a <= 255 && b <= 255 && c <= 255 && d <= 255
    ensures OfFour(a, b, c, d) < TWO_32 && Dotted(OfFour(a, b, c, d)) == Quad(a, b, c, d)
  {
    hide Decimal.ToString;
    var x := OfFour(a, b, c, d);
    Bytes(x);
    assert x / 256 == (a * 256 + b) * 256 + c && x % 256 == d;
    assert x / 256 / 256 == a * 256 + b && x / 256 % 256 == c;
    assert x / 256 / 256 / 256 == a && x / 256 / 256 % 256 == b;
  }

  lemma NumberOfOctets(x: nat)
    requires x < TWO_32
    ensures x == OfFour(x / 0x100_0000 % 256, x / 0x1_0000 % 256, x / 256 % 256, x % 256)
  {
    Bytes(x);
    var (p, q) := (x / 256, x / 256 / 256);
    assert q / 256 < 256;
    assert q == q / 256 * 256 + q % 256;
    assert p == q * 256 + p % 256;
    assert x == p * 256 + x % 256;
    assert OfFour(q / 256, q % 256, p % 256, x % 256) == x;
  }

  lemma QuadParses(a: nat, b: nat, c: nat, d: nat)
    requires a <= 255 && b <= 255 && c <= 255 && d <= 255
    ensures Ipv4(Quad(a, b, c, d)) == Some(OfFour(a, b, c, d))
  {
    QuadSplits(a, b, c, d);
    var parts := Split(Quad(a, b, c, d), DOT);
    FromFourOctets(parts);
    hide *;
    OctetIff(parts[0], a);
    OctetIff(parts[1], b);
    OctetIff(parts[2], c);
    OctetIff(parts[3], d);
    FourOctets(parts);
  }

  lemma ParsedIsQuad(s: string)
    requires Ipv4(s).Some?
    ensures Ipv4(s).value < TWO_32 && s == Dotted(Ipv4(s).value)
  {
    var parts := Split(s, DOT);
    FromFourOctets(parts);
    FourOctets(parts);
    hide *;
    var (a, b, c, d) := (Octet(parts[0]).value, Octet(parts[1]).value, Octet(parts[2]).value, Octet(parts[3]).value);
    OctetIff(parts[0], a);
    OctetIff(parts[1], b);
    OctetIff(parts[2], c);
    OctetIff(parts[3], d);
    OctetsOfNumber(a, b, c, d);
    QuadSplits(a, b, c, d);
    JoinOfSplit(s, DOT);
    assert parts == [Decimal.ToString(a), Decimal.ToString(b), Decimal.ToString(c), Decimal.ToString(d)];
  }

  /** Parsing and printing are inverse: the dotted form of x is the only text that parses to x. */
  lemma DottedIff(s: string, x: nat)
    ensures Ipv4(s) == Some(x) <==> x < TWO_32 && s == Dotted(x)
  {
    if x < TWO_32 && s == Dotted(x) {
      NumberOfOctets(x);
      QuadParses(x / 0x100_0000 % 256, x / 0x1_0000 % 256, x / 256 % 256, x % 256);
    }
    hide Ipv4, Dotted;
    if Ipv4(s) == Some(x) {
      ParsedIsQuad(s);
    }
  }

  // ---------------------------------------------------------------- normalizeIp

  predicate IsHexDigit(c: char) {
    '0' <= c <= '9' || 'a' <= c <= 'f' || 'A' <= c <= 'F'
  }

  function HexDigitValue(c: char): (v: nat)
    requires IsHexDigit(c)
    ensures v < 16
  {
    if '0' <= c <= '9' then c as int - '0' as int
    else if 'a' <= c <= 'f' then c as int - 'a' as int + 10
    else c as int - 'A' as int + 10
  }

  predicate AllHex(s: string) {
    forall i :: 0 <= i < |s| ==> IsHexDigit(s[i])
  }

  function HexValue(s: string): nat
    requires AllHex(s)
  {
    if s == "" then 0 else HexValue(s[..|s| - 1]) * 16 + HexDigitValue(s[|s| - 1])
  }

  /** ::ffff: in any letter case. */
  predicate IsMapped(s: string) {
    && |s| >= 7 && s[0] == ':' && s[1] == ':' && s[6] == ':'
    && forall i :: 2 <= i < 6 ==> s[i] == 'f' || s[i] == 'F'
  }

  /** \d{1,3}.\d{1,3}.\d{1,3}.\d{1,3} */
  predicate IsDottedPattern(s: string) {
    var p := Split(s, DOT);
    |p| == 4 && forall i :: 0 <= i < 4 ==> 1 <= |p[i]| <= 3 && Decimal.AllDigits(p[i])
  }

  predicate IsHexGroup(s: string) {
    1 <= |s| <= 4 && AllHex(s)
  }

  /** [0-9a-f]{1,4}:[0-9a-f]{1,4} in any letter case. */
  predicate IsHexPattern(s: string) {
    var p := Split(s, ':');
    |p| == 2 && IsHexGroup(p[0]) && IsHexGroup(p[1])
  }

  function FromHex(hi: nat, lo: nat): string {
    Quad(Bits.And(hi / 256, 0xff), Bits.And(hi, 0xff), Bits.And(lo / 256, 0xff), Bits.And(lo, 0xff))
  }

  function WithoutZone(ip: string): string {
    Split(ip, '%')[0]
  }

  function NormalizeIp(ip: string): Option<string> {
    if ip == "" then None
    else
      var stripped := WithoutZone(ip);
      if IsMapped(stripped) && IsDottedPattern(stripped[7..]) then Some(stripped[7..])
      else if IsMapped(stripped) && IsHexPattern(stripped[7..]) then
        var p := Split(stripped[7..], ':');
        Some(FromHex(HexValue(p[0]), HexValue(p[1])))
      else Some(stripped)
  }

  // ---------------------------------------------------------------- the spellings of an address

  ghost predicate IsHexOf(s: string, x: nat) {
    exists h, l :: IsHexGroup(h) && IsHexGroup(l) && s == h + ":" + l && HexValue(h) * 0x1_0000 + HexValue(l) == x
  }

  /** Dotted, or IPv4-mapped in either form (section 2.5.5.2 of RFC 4291). */
  ghost predicate Spells(s: string, x: nat) {
    x < TWO_32 && (s == Dotted(x) || (IsMapped(s) && (s[7..] == Dotted(x) || IsHexOf(s[7..], x))))
  }

  function AddressOf(ip: string): Option<nat> {
    match NormalizeIp(ip)
    case None => None
    case Some(s) => Ipv4(s)
  }

  lemma {:induction false} HexIsBounded(s: string)
    requires AllHex(s)
    ensures |s| == 0 ==> HexValue(s) == 0
    ensures |s| == 1 ==> HexValue(s) < 0x10
    ensures |s| == 2 ==> HexValue(s) < 0x100
    ensures |s| == 3 ==> HexValue(s) < 0x1000
    ensures |s| == 4 ==> HexValue(s) < 0x1_0000
  {
    if s != "" {
      HexIsBounded(s[..|s| - 1]);
    }
  }

  lemma {:induction false} LowByte(x: nat)
    ensures Bits.And(x, 0xff) == x % 256
  {
    assert Bits.Pow2(8) == 256 by { assert Bits.Pow2(4) == 16; }
    Bits.AndLow(x, 8);
  }

  lemma FromHexIsDotted(hi: nat, lo: nat)
    requires hi < 0x1_0000 && lo < 0x1_0000
    ensures FromHex(hi, lo) == Dotted(hi * 0x1_0000 + lo) && hi * 0x1_0000 + lo < TWO_32
  {
    hide Bits.And, Dotted, Quad, Decimal.ToString;
    LowByte(hi / 256);
    LowByte(hi);
    LowByte(lo / 256);
    LowByte(lo);
    var (a, b, c, d) := (hi / 256, hi % 256, lo / 256, lo % 256);
    assert FromHex(hi, lo) == Quad(a, b, c, d);
    OctetsOfNumber(a, b, c, d);
    assert OfFour(a, b, c, d) == (a * 256 + b) * 0x1_0000 + (c * 256 + d);
  }

  lemma {:induction false} OctetWidth(n: nat)
    requires n <= 255
    ensures 1 <= |Decimal.ToString(n)| <= 3 && Decimal.AllDigits(Decimal.ToString(n))
  {
    Decimal.ToStringRoundTrip(n);
    if n >= 10 {
      assert Decimal.ToString(n) == Decimal.ToString(n / 10) + [Decimal.Digit(n % 10)];
      if n / 10 >= 10 {
        assert Decimal.ToString(n / 10) == Decimal.ToString(n / 10 / 10) + [Decimal.Digit(n / 10 % 10)];
      }
    }
  }

  /** A dotted form matches the dotted pattern, begins with a digit, and holds no colon, slash or space. */
  lemma DottedShape(x: nat)
    requires x < TWO_32
    ensures var s := Dotted(x);
            IsDottedPattern(s) && s != "" && Decimal.IsDigit(s[0]) && Decimal.IsDigit(s[|s| - 1])
            && forall i :: 0 <= i < |s| ==> s[i] == DOT || Decimal.IsDigit(s[i])
  {
    var (a, b, c, d) := (x / 0x100_0000 % 256, x / 0x1_0000 % 256, x / 256 % 256, x % 256);
    QuadSplits(a, b, c, d);
    OctetWidth(a);
    OctetWidth(b);
    OctetWidth(c);
    OctetWidth(d);
    hide Decimal.ToString, Split;
  }

  lemma {:induction false} HexIsNotDotted(s: string, x: nat)
    requires IsHexOf(s, x)
    ensures ':' in s && IsHexPattern(s) && !IsDottedPattern(s)
    ensures var p := Split(s, ':'); HexValue(p[0]) * 0x1_0000 + HexValue(p[1]) == x
  {
    var h, l :| IsHexGroup(h) && IsHexGroup(l) && s == h + ":" + l && HexValue(h) * 0x1_0000 + HexValue(l) == x;
    assert ':' !in h && ':' !in l;
    SplitFirst(h, ':', l);
    SplitFirst(l, ':', "");
    assert h + [':'] + l == s;
    assert s[|h|] == ':';
    if IsDottedPattern(s) {
      PatternHoldsNoColon(s);
    }
  }

  lemma PatternHoldsNoColon(s: string)
    requires IsDottedPattern(s)
    ensures ':' !in s
  {
    var p := Split(s, DOT);
    JoinOfSplit(s, DOT);
    FourJoin(p);
    hide Split;
    assert ':' !in p[0] && ':' !in p[1] && ':' !in p[2] && ':' !in p[3];
  }

  lemma {:induction false} PatternIsHexOf(s: string)
    requires IsHexPattern(s)
    ensures var p := Split(s, ':'); IsHexOf(s, HexValue(p[0]) * 0x1_0000 + HexValue(p[1]))
    ensures ':' in s
  {
    var p := Split(s, ':');
    JoinOfSplit(s, ':');
    assert p[1..] == [p[1]];
    assert Join(p, ':') == p[0] + ":" + p[1];
    assert s[|p[0]|] == ':';
  }

  /** Exactly the spellings of x, with any zone id after them, are read as x. */
  lemma SpelledIff(ip: string, x: nat)
    ensures AddressOf(ip) == Some(x) <==> Spells(WithoutZone(ip), x)
  {
    var s := WithoutZone(ip);
    if x < TWO_32 { DottedShape(x); }
    DottedIff(s, x);
    if ip == "" {
      assert s == "";
    } else if !IsMapped(s) {
    } else {
      var t := s[7..];
      DottedIff(t, x);
      assert x < TWO_32 ==> Dotted(x)[0] != ':';
      if IsHexOf(t, x) { HexIsNotDotted(t, x); }
      if IsDottedPattern(t) {
        PatternHoldsNoColon(t);
      } else if IsHexPattern(t) {
        MappedHexIff(t, x);
      }
    }
  }

  lemma {:induction false} HexPatternIff(t: string, x: nat)
    requires IsHexPattern(t)
    ensures var p := Split(t, ':'); IsHexOf(t, x) <==> x == HexValue(p[0]) * 0x1_0000 + HexValue(p[1])
  {
    PatternIsHexOf(t);
    if IsHexOf(t, x) { HexIsNotDotted(t, x); }
  }

  lemma FromHexParses(hi: nat, lo: nat)
    requires hi < 0x1_0000 && lo < 0x1_0000
    ensures Ipv4(FromHex(hi, lo)) == Some(hi * 0x1_0000 + lo)
    ensures hi * 0x1_0000 + lo < TWO_32
  {
    hide *;
    FromHexIsDotted(hi, lo);
    DottedIff(FromHex(hi, lo), hi * 0x1_0000 + lo);
  }

  lemma {:induction false} HexPatternParts(t: string)
    requires IsHexPattern(t)
    ensures var p := Split(t, ':');
            |p| == 2 && AllHex(p[0]) && AllHex(p[1]) && HexValue(p[0]) < 0x1_0000 && HexValue(p[1]) < 0x1_0000
  {
    var p := Split(t, ':');
    hide Split;
    HexIsBounded(p[0]);
    HexIsBounded(p[1]);
  }

  lemma {:induction false} MappedHexIff(t: string, x: nat)
    requires IsHexPattern(t)
    ensures var p := Split(t, ':'); Ipv4(FromHex(HexValue(p[0]), HexValue(p[1]))) == Some(x) <==> IsHexOf(t, x)
    ensures IsHexOf(t, x) ==> x < TWO_32
    ensures x < TWO_32 ==> t != Dotted(x)
  {
    hide FromHex, Dotted, Ipv4, Split, HexValue, IsHexGroup, IsHexOf;
    PatternIsHexOf(t);
    HexPatternIff(t, x);
    HexPatternParts(t);
    var p := Split(t, ':');
    FromHexParses(HexValue(p[0]), HexValue(p[1]));
    if x < TWO_32 { DottedHoldsNoColon(x); }
  }

  lemma DottedHoldsNoColon(x: nat)
    requires x < TWO_32
    ensures ':' !in Dotted(x)
  {
    DottedShape(x);
    hide Dotted;
  }
}
