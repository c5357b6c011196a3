/** Allowlist entries, the list of them, and the test of an address against it. */
module IpAllowlist {
  import opened Wrappers
  import opened Text
  import opened IpAddress
  import Bits
  import Decimal

  /** Native IPv6 is Node's: which strings are IPv6 addresses, and its subnet test. */
  datatype Platform = Platform(isIpv6: string -> bool, inSubnet: (string, nat, string) -> bool)

  datatype Entry = Cidr4(network: nat, mask: nat) | Cidr6(address: string, prefix: nat)

  type Allowlist = Option<seq<Entry>>

  // ---------------------------------------------------------------- parseEntry

  /** The first `prefix` bits of 32; a shift by 32 would be a shift by 0, so an empty prefix is told apart. */
  function Mask(prefix: nat): nat
    requires prefix <= 32
  {
    if prefix == 0 then 0 else ToUint32(-1 * Bits.Pow2(32 - prefix))
  }

  function ParseEntry6(address: string, pieces: seq<string>): Option<Entry>
    requires |pieces| > 0
  {
    var prefix := if |pieces| == 1 then "128" else Trim(pieces[1]);
    if prefix == "" || !Decimal.AllDigits(prefix) || Decimal.Value(prefix) > 128 then None
    else Some(Cidr6(address, Decimal.Value(prefix)))
  }

  function ParseEntry4(trimmed: string): Option<Entry> {
    if '/' in trimmed then
      var first := Split(trimmed, '/')[0];
      var rest := if |first| + 1 <= |trimmed| then trimmed[|first| + 1..] else "";
      match ParseInt(Trim(rest))
      case None => None
      case Some(prefix) =>
        if prefix < 0 || prefix > 32 then None
        else
          match Ipv4(Trim(first))
          case None => None
          case Some(ip) => Some(Cidr4(Bits.And(ip, Mask(prefix)), Mask(prefix)))
    else
      match Ipv4(trimmed)
      case None => None
      case Some(ip) => Some(Cidr4(ip, 0xffff_ffff))
  }

  /** The address part of an entry when normalising it gives another, dotted, address. */
  function Rewritten(entry: string): (r: Option<string>)
    ensures r.Some? ==> Ipv4(r.value).Some?
  {
    var addrPart := Trim(Split(Trim(entry), '/')[0]);
    match NormalizeIp(addrPart)
    case None => None
    case Some(addr) => if addr != addrPart && Ipv4(addr).Some? then Some(addr) else None
  }

  function ParseEntry(net: Platform, entry: string): Option<Entry>
    decreases if Rewritten(entry).Some? then 1 else 0
  {
    hide NormalizeIp, Trim, Split, Ipv4;
    var trimmed := Trim(entry);
    if trimmed == "" then None
    else
      var pieces := Split(trimmed, '/');
      var addrPart := Trim(pieces[0]);
      var addr := NormalizeIp(addrPart);
      if addr.Some? && addr.value != "" && net.isIpv6(addr.value) then ParseEntry6(addr.value, pieces)
      else if Rewritten(entry).Some? then
        var again := Rewritten(entry).value + if |pieces| == 1 then "" else "/" + pieces[1];
        RewrittenIsPlain(Rewritten(entry).value, if |pieces| == 1 then "" else "/" + pieces[1]);
        ParseEntry(net, again)
      else ParseEntry4(trimmed)
  }

  // ---------------------------------------------------------------- parseAllowlist, isAllowed

  function ParseEntries(net: Platform, pieces: seq<string>): seq<Entry> {
    if pieces == [] then []
    else
      match ParseEntry(net, pieces[0])
      case None => ParseEntries(net, pieces[1..])
      case Some(e) => [e] + ParseEntries(net, pieces[1..])
  }

  function ParseAllowlist(net: Platform, raw: string): Allowlist {
    if raw == "" || Trim(raw) == "" then None
    else
      var entries := ParseEntries(net, Split(raw, ','));
      if entries == [] then None else Some(entries)
  }

  predicate Covers(e: Entry, ip: nat) {
    e.Cidr4? && Bits.And(ip, e.mask) == e.network
  }

  predicate IsAllowed(net: Platform, ip: string, list: Allowlist) {
    match list
    case None => true
    case Some(entries) =>
      match NormalizeIp(ip)
      case None => false
      case Some(s) =>
        if s == "" then false
        else if net.isIpv6(s) then exists e :: e in entries && e.Cidr6? && net.inSubnet(e.address, e.prefix, s)
        else
          match Ipv4(s)
          case None => false
          case Some(x) => exists e :: e in entries && Covers(e, x)
  }

  // ---------------------------------------------------------------- one entry

  /** Written after an address, `suffix` is nothing or a slash and more. */
  predicate IsSuffix(suffix: string) {
    suffix == "" || suffix[0] == '/'
  }

  lemma {:induction false} FirstPiece(a: string, suffix: string)
    requires a != "" && '/' !in a && !IsSpace(a[0]) && !IsSpace(a[|a| - 1]) && IsSuffix(suffix)
    ensures Trim(a + suffix) == a + TrimEnd(suffix) && IsSuffix(TrimEnd(suffix))
    ensures Trim(a) == a
    ensures Split(Trim(a + suffix), '/')[0] == a
  {
    hide Split;
    TrimEndKeepsPrefix(a, suffix);
    TrimEndKeepsPrefix(a, "");
    assert a + "" == a;
    if suffix == "" {
      SplitFirst(a, '/', "");
    } else {
      TrimEndKeepsPrefix("/", suffix[1..]);
      assert "/" + suffix[1..] == suffix;
      SplitFirst(a, '/', TrimEnd(suffix[1..]));
      assert a + TrimEnd(suffix) == a + ['/'] + TrimEnd(suffix[1..]);
    }
  }

  lemma DottedIsPlain(x: nat)
    requires x < TWO_32
    ensures var a := Dotted(x); a != "" && '/' !in a && '%' !in a && ',' !in a && !IsSpace(a[0]) && !IsSpace(a[|a| - 1])
    ensures NormalizeIp(Dotted(x)) == Some(Dotted(x))
  {
    DottedShape(x);
    var a := Dotted(x);
    hide Dotted;
    SplitFirst(a, '%', "");
    assert a[0] != ':';
  }

  /** A rewritten entry is not rewritten again. */
  lemma RewrittenIsPlain(addr: string, suffix: string)
    requires Ipv4(addr).Some? && IsSuffix(suffix)
    ensures Rewritten(addr + suffix) == None
  {
    DottedIff(addr, Ipv4(addr).value);
    hide Ipv4, Dotted, NormalizeIp, Trim;
    DottedIsPlain(Ipv4(addr).value);
    FirstPiece(addr, suffix);
  }

  function AddressPart(text: string): string {
    Trim(Split(Trim(text), '/')[0])
  }

  /** The number after the first slash, 32 when there is none. */
  function LengthOf(text: string): Option<int> {
    var pieces := Split(Trim(text), '/');
    if |pieces| == 1 then Some(32) else ParseInt(pieces[1])
  }

  /**
   The text of a prefix entry: any spelling of the address, with or without a zone id, a slash and a length.
   White space may stand around each part, the length is read as parseInt reads it, and /32 may be left out.
   */
  ghost predicate Writes(text: string, b: nat, p: nat) {
    p <= 32 && Spells(WithoutZone(AddressPart(text)), b) && LengthOf(text) == Some(p)
  }

  function EntryFor(b: nat, p: nat): Entry
    requires p <= 32
  {
    Cidr4(Bits.And(b, Mask(p)), Mask(p))
  }

  /** The entry of an address and a length, when the length is one. */
  function EntryOf(b: nat, length: Option<int>): Option<Entry> {
    if length.Some? && 0 <= length.value <= 32 then Some(EntryFor(b, length.value)) else None
  }

  lemma Pow2Of32()
    ensures Bits.Pow2(32) == TWO_32
  {
    assert Bits.Pow2(8) == 256;
    assert Bits.Pow2(16) == 0x1_0000;
    assert Bits.Pow2(24) == 0x100_0000;
  }

  lemma {:induction false} MaskIs(x: nat, p: nat)
    requires x < TWO_32 && p <= 32
    ensures Bits.And(x, Mask(p)) == x / Bits.Pow2(32 - p) * Bits.Pow2(32 - p)
  {
    Pow2Of32();
    Bits.AndHigh(x, 32, 32 - p);
    hide Bits.And, Bits.Pow2;
    if p == 0 {
      assert x / TWO_32 == 0;
      AndZero(x);
    } else {
      var m := Bits.Pow2(32 - p);
      SmallerPower(32 - p);
      NegativeUint32(m);
    }
  }

  lemma {:induction false} AndZero(x: nat)
    ensures Bits.And(x, 0) == 0
  {
  }

  lemma {:induction false} SmallerPower(k: nat)
    requires k < 32
    ensures Bits.Pow2(k) < TWO_32
  {
    Bits.AndHigh(0, 31, k);
    Pow2Of32();
    assert Bits.Pow2(32) == 2 * Bits.Pow2(31);
  }

  lemma NegativeUint32(m: nat)
    requires 0 < m < TWO_32
    ensures ToUint32(-1 * m) == TWO_32 - m
  {
  }

  lemma {:induction false} WholeMask(b: nat)
    requires b < TWO_32
    ensures Mask(32) == 0xffff_ffff && Bits.And(b, Mask(32)) == b
  {
    MaskIs(b, 32);
  }

  lemma {:induction false} OnePieceIff(t: string)
    ensures |Split(t, '/')| == 1 <==> '/' !in t
    ensures |Split(t, '/')| == 1 ==> Split(t, '/') == [t]
  {
    JoinOfSplit(t, '/');
    if '/' !in t { SplitFirst(t, '/', ""); }
    hide Split;
  }

  /** The pieces after the first, put together, are a number or none as the first of them is. */
  lemma {:induction false} FirstOfRest(pieces: seq<string>)
    requires pieces != []
    ensures ParseInt(Join(pieces, '/')) == ParseInt(pieces[0])
  {
    hide ParseInt;
    if |pieces| > 1 {
      var more := ['/'] + Join(pieces[1..], '/');
      assert Join(pieces, '/') == pieces[0] + more;
      ParseIntStops(pieces[0], more);
    }
  }

  /** After the first of several pieces come a slash and the second, whose number is that of all the rest. */
  lemma {:induction false} RestOfPieces(t: string)
    requires |Split(t, '/')| > 1
    ensures var pieces := Split(t, '/');
            |pieces[0]| + 1 <= |t| && ParseInt(Trim(t[|pieces[0]| + 1..])) == ParseInt(pieces[1])
  {
    JoinOfSplit(t, '/');
    hide ParseInt, Trim, Split;
    var pieces := Split(t, '/');
    var rest := Join(pieces[1..], '/');
    assert t == pieces[0] + ['/'] + rest;
    assert t[|pieces[0]| + 1..] == rest;
    ParseIntTrims(rest);
    FirstOfRest(pieces[1..]);
  }

  /** An entry whose address part is dotted already. */
  lemma PlainParses(text: string, b: nat)
    requires b < TWO_32 && AddressPart(text) == Dotted(b)
    ensures ParseEntry4(Trim(text)) == EntryOf(b, LengthOf(text))
  {
    var t := Trim(text);
    DottedIff(Dotted(b), b);
    OnePieceIff(t);
    TrimTwice(text);
    hide Dotted, Ipv4, Trim, Split, ParseInt, Mask, Bits.And;
    if '/' in t {
      RestOfPieces(t);
    } else {
      WholeMask(b);
    }
  }

  lemma {:induction false} SlashSplits(a: string, t: string)
    requires '/' !in a && '/' !in t
    ensures Split(a + ("/" + t), '/') == [a, t]
  {
    hide Split;
    SplitFirst(a, '/', t);
    SplitFirst(t, '/', "");
    assert a + ("/" + t) == a + ['/'] + t;
  }

  lemma {:induction false} TrimEndHolds(p: string, c: char)
    requires c !in p
    ensures c !in TrimEnd(p)
  {
    TrimEndEnds(p);
    hide TrimEnd;
  }

  lemma SlashIsSuffix(p: string)
    ensures IsSuffix("/" + p)
  {
  }

  lemma {:induction false} PlainPieces(a: string, p: string)
    requires a != "" && '/' !in a && !IsSpace(a[0]) && !IsSpace(a[|a| - 1]) && '/' !in p
    ensures Trim(a + ("/" + p)) == a + ("/" + TrimEnd(p))
    ensures Split(a + ("/" + TrimEnd(p)), '/') == [a, TrimEnd(p)]
  {
    hide *;
    SlashIsSuffix(p);
    FirstPiece(a, "/" + p);
    TrimEndKeepsSlash(p);
    TrimEndHolds(p, '/');
    SlashSplits(a, TrimEnd(p));
  }

  /** The second piece of an entry holds no slash. */
  lemma {:induction false} SecondPiece(t: string)
    requires |Split(t, '/')| > 1
    ensures '/' !in Split(t, '/')[1]
  {
    JoinOfSplit(t, '/');
  }

  lemma PlainAgain(a: string, p: string, text: string)
    requires a != "" && '/' !in a && !IsSpace(a[0]) && !IsSpace(a[|a| - 1]) && Trim(a) == a && '/' !in p
    requires text == a + ("/" + p)
    ensures AddressPart(text) == a && LengthOf(text) == ParseInt(p) && Trim(text) != ""
  {
    PlainPieces(a, p);
    ParseIntTrims(p);
    hide Split, Trim, TrimEnd, ParseInt, IsSpace;
  }

  lemma PlainAlone(a: string)
    requires a != "" && '/' !in a && Trim(a) == a
    ensures AddressPart(a) == a && LengthOf(a) == Some(32) && Trim(a) != ""
  {
    SplitFirst(a, '/', "");
    hide Split, Trim;
  }

  /** What a rewritten entry is parsed as again: the same address, now dotted, and the same length. */
  lemma AgainIsPlain(text: string, b: nat)
    requires b < TWO_32
    ensures var pieces := Split(Trim(text), '/');
            var again := Dotted(b) + if |pieces| == 1 then "" else "/" + pieces[1];
            AddressPart(again) == Dotted(b) && LengthOf(again) == LengthOf(text) && Trim(again) != ""
  {
    var (a, pieces) := (Dotted(b), Split(Trim(text), '/'));
    DottedIsPlain(b);
    assert IsSuffix("");
    assert LengthOf(text) == if |pieces| == 1 then Some(32) else ParseInt(pieces[1]);
    hide *;
    FirstPiece(a, "");
    if |pieces| == 1 {
      assert a + "" == a;
      PlainAlone(a);
    } else {
      SecondPiece(Trim(text));
      PlainAgain(a, pieces[1], a + ("/" + pieces[1]));
    }
  }

  lemma {:induction false} TrimEndKeepsSlash(p: string)
    ensures TrimEnd("/" + p) == "/" + TrimEnd(p)
  {
    TrimEndKeepsPrefix("/", p);
  }

  /** Whatever spells an address is read as its dotted form, with the length the text gives. */
  lemma {:induction false} SpelledParses(net: Platform, text: string, b: nat)
    requires AddressOf(AddressPart(text)) == Some(b) && !net.isIpv6(Dotted(b))
    ensures ParseEntry(net, text) == EntryOf(b, LengthOf(text))
  {
    var (addrPart, pieces) := (AddressPart(text), Split(Trim(text), '/'));
    var suffix := if |pieces| == 1 then "" else "/" + pieces[1];
    NormalizedIs(addrPart, b);
    NotBlank(text);
    DottedIsPlain(b);
    if addrPart == Dotted(b) {
      PlainParses(text, b);
      ParseUnfolds(net, text, b);
    } else {
      AgainIsPlain(text, b);
      PlainParses(Dotted(b) + suffix, b);
      ParseUnfolds(net, text, b);
      ParseUnfolds(net, Dotted(b) + suffix, b);
    }
  }

  lemma NormalizedIs(core: string, b: nat)
    requires AddressOf(core) == Some(b)
    ensures b < TWO_32 && NormalizeIp(core) == Some(Dotted(b)) && Ipv4(Dotted(b)) == Some(b)
  {
    hide Dotted, Ipv4, NormalizeIp;
    DottedIff(NormalizeIp(core).value, b);
  }

  lemma NotBlank(text: string)
    requires AddressOf(AddressPart(text)).Some?
    ensures Trim(text) != ""
  {
    hide Ipv4;
  }

  lemma {:induction false} ParseUnfolds(net: Platform, text: string, b: nat)
    requires NormalizeIp(AddressPart(text)) == Some(Dotted(b)) && Ipv4(Dotted(b)) == Some(b)
    requires !net.isIpv6(Dotted(b)) && Trim(text) != ""
    ensures var pieces := Split(Trim(text), '/');
            ParseEntry(net, text) == if AddressPart(text) == Dotted(b) then ParseEntry4(Trim(text))
                                     else ParseEntry(net, Dotted(b) + if |pieces| == 1 then "" else "/" + pieces[1])
  {
    hide Dotted, Ipv4, NormalizeIp, Trim, Split, ParseEntry4;
  }

  /** Whatever does not spell an address is no IPv4 entry. */
  lemma {:induction false} OtherIsNoIpv4(net: Platform, text: string)
    requires AddressOf(AddressPart(text)) == None
    ensures ParseEntry(net, text).Some? ==> ParseEntry(net, text).value.Cidr6?
  {
    var (t, addrPart) := (Trim(text), AddressPart(text));
    OnePieceIff(t);
    TrimTwice(text);
    if Ipv4(addrPart).Some? {
      DottedIff(addrPart, Ipv4(addrPart).value);
      DottedIsPlain(Ipv4(addrPart).value);
    }
    assert Ipv4(addrPart) == None;
    hide Dotted, Ipv4, NormalizeIp, Trim, Split, ParseInt, Mask, Bits.And;
  }

  /** Every way to write a prefix entry parses to its network and mask. */
  lemma {:induction false} WrittenParses(net: Platform, text: string, b: nat, p: nat)
    requires Writes(text, b, p) && !net.isIpv6(Dotted(b))
    ensures ParseEntry(net, text) == Some(EntryFor(b, p))
  {
    SpelledIff(AddressPart(text), b);
    SpelledParses(net, text, b);
  }

  /** The IPv4 entries are exactly the written ones. */
  lemma {:induction false} EntryIff(net: Platform, text: string, e: Entry)
    requires forall n: nat :: n < TWO_32 ==> !net.isIpv6(Dotted(n))
    requires e.Cidr4?
    ensures ParseEntry(net, text) == Some(e) <==> exists b, p :: Writes(text, b, p) && e == EntryFor(b, p)
  {
    var spelled := AddressOf(AddressPart(text));
    if spelled.None? {
      OtherIsNoIpv4(net, text);
    } else {
      SpelledIff(AddressPart(text), spelled.value);
      NormalizedIs(AddressPart(text), spelled.value);
      SpelledParses(net, text, spelled.value);
    }
    hide AddressOf, ParseEntry, Dotted, EntryFor, Spells, AddressPart, LengthOf, WithoutZone;
    if ParseEntry(net, text) == Some(e) {
      assert Writes(text, spelled.value, LengthOf(text).value);
    }
    if b, p :| Writes(text, b, p) && e == EntryFor(b, p) {
      SpelledIff(AddressPart(text), b);
    }
  }

  /** An address matches a prefix entry exactly when the two agree in their first p bits (section 3.1 of RFC 4632). */
  lemma {:induction false} CoversIff(b: nat, p: nat, x: nat)
    requires b < TWO_32 && p <= 32 && x < TWO_32
    ensures Covers(EntryFor(b, p), x) <==> x / Bits.Pow2(32 - p) == b / Bits.Pow2(32 - p)
  {
    MaskIs(x, p);
    MaskIs(b, p);
    hide Mask, Bits.And, Bits.Pow2;
    var m := Bits.Pow2(32 - p);
    MulInjective(x / m, b / m, m);
  }

  lemma MulInjective(u: nat, v: nat, m: nat)
    requires m > 0
    ensures u * m == v * m <==> u == v
  {
    Bits.MulMonotone(u + 1, v, m);
    Bits.MulMonotone(v + 1, u, m);
  }

  // ---------------------------------------------------------------- the list

  datatype RawRule = RawRule(address: nat, length: nat)
  type Rule = r: RawRule | r.address < TWO_32 && r.length <= 32 witness RawRule(0, 0)

  /** The first `length` bits agree. */
  predicate Agrees(x: nat, rule: Rule) {
    x / Bits.Pow2(32 - rule.length) == rule.address / Bits.Pow2(32 - rule.length)
  }

  lemma {:induction false} ParseEntriesHold(net: Platform, pieces: seq<string>, e: Entry)
    ensures e in ParseEntries(net, pieces) <==> exists i :: 0 <= i < |pieces| && ParseEntry(net, pieces[i]) == Some(e)
  {
    hide ParseEntry;
    if pieces != [] {
      ParseEntriesHold(net, pieces[1..], e);
      if e in ParseEntries(net, pieces[1..]) {
        var i :| 0 <= i < |pieces[1..]| && ParseEntry(net, pieces[1..][i]) == Some(e);
        assert ParseEntry(net, pieces[i + 1]) == Some(e);
      }
      if i :| 0 <= i < |pieces| && ParseEntry(net, pieces[i]) == Some(e) {
        if i > 0 { assert ParseEntry(net, pieces[1..][i - 1]) == Some(e); }
      }
    }
  }

  lemma {:induction false} TrimmedAway(s: string)
    requires Trim(s) == ""
    ensures forall i :: 0 <= i < |s| ==> IsSpace(s[i])
  {
    if s != "" && IsSpace(s[|s| - 1]) {
      TrimmedAway(s[..|s| - 1]);
    } else if s != "" {
      TrimStartKeepsEnd(s);
    }
  }

  lemma {:induction false} TrimStartKeepsEnd(s: string)
    requires s != "" && !IsSpace(s[|s| - 1])
    ensures TrimStart(s) != ""
  {
    if IsSpace(s[0]) {
      TrimStartKeepsEnd(s[1..]);
    }
  }

  lemma {:induction false} BlankParsesToNothing(net: Platform, raw: string)
    requires Trim(raw) == ""
    ensures Split(raw, ',') == [raw] && ParseEntry(net, raw) == None
  {
    TrimmedAway(raw);
    SplitFirst(raw, ',', "");
  }

  /** The filter is off exactly when no piece of the text parses, blank text included. */
  lemma {:induction false} DisabledIff(net: Platform, raw: string)
    ensures ParseAllowlist(net, raw) == None <==>
              forall i :: 0 <= i < |Split(raw, ',')| ==> ParseEntry(net, Split(raw, ',')[i]) == None
  {
    var pieces := Split(raw, ',');
    if raw == "" || Trim(raw) == "" {
      BlankParsesToNothing(net, raw);
    } else {
      hide ParseEntry, Split, Trim;
      var entries := ParseEntries(net, pieces);
      if entries != [] {
        ParseEntriesHold(net, pieces, entries[0]);
      }
      forall i | 0 <= i < |pieces| && ParseEntry(net, pieces[i]).Some? ensures entries != [] {
        ParseEntriesHold(net, pieces, ParseEntry(net, pieces[i]).value);
      }
    }
  }

  ghost predicate WritesRule(text: string, rule: Rule) {
    Writes(text, rule.address, rule.length)
  }

  /**
   An address, however it is spelled, passes the list that any text gives exactly when it agrees with a
   prefix entry written there in that entry's first bits, or when no piece of the text parses at all.
   */
  lemma {:induction false} AllowedIff(net: Platform, ip: string, x: nat, raw: string)
    requires forall n: nat :: n < TWO_32 ==> !net.isIpv6(Dotted(n))
    requires Spells(WithoutZone(ip), x)
    ensures var pieces := Split(raw, ',');
            IsAllowed(net, ip, ParseAllowlist(net, raw)) <==>
              || (forall i :: 0 <= i < |pieces| ==> ParseEntry(net, pieces[i]) == None)
              || (exists i, rule :: 0 <= i < |pieces| && WritesRule(pieces[i], rule) && Agrees(x, rule))
  {
    var pieces := Split(raw, ',');
    DisabledIff(net, raw);
    SpelledIff(ip, x);
    NormalizedIs(ip, x);
    DottedIsPlain(x);
    if ParseAllowlist(net, raw).Some? {
      AllowedUnfolds(net, ip, x, raw);
      EntriesCover(net, pieces, x);
    }
    hide *;
  }

  lemma {:induction false} AllowedUnfolds(net: Platform, ip: string, x: nat, raw: string)
    requires NormalizeIp(ip) == Some(Dotted(x)) && Dotted(x) != "" && Ipv4(Dotted(x)) == Some(x)
    requires !net.isIpv6(Dotted(x))
    ensures ParseAllowlist(net, raw).None? ==> IsAllowed(net, ip, ParseAllowlist(net, raw))
    ensures ParseAllowlist(net, raw).Some? ==>
              (IsAllowed(net, ip, ParseAllowlist(net, raw)) <==>
                 exists e :: e in ParseEntries(net, Split(raw, ',')) && Covers(e, x))
  {
    hide Dotted, Ipv4, NormalizeIp, ParseEntries, Split, Covers;
  }

  lemma {:induction false} EntriesCover(net: Platform, texts: seq<string>, x: nat)
    requires forall n: nat :: n < TWO_32 ==> !net.isIpv6(Dotted(n))
    requires x < TWO_32
    ensures (exists e :: e in ParseEntries(net, texts) && Covers(e, x)) <==>
              exists i, rule :: 0 <= i < |texts| && WritesRule(texts[i], rule) && Agrees(x, rule)
  {
    hide ParseEntry, EntryFor, Bits.And, Bits.Pow2, ParseEntries, AddressPart, LengthOf, WithoutZone, Dotted;
    if e :| e in ParseEntries(net, texts) && Covers(e, x) {
      ParseEntriesHold(net, texts, e);
      var i :| 0 <= i < |texts| && ParseEntry(net, texts[i]) == Some(e);
      EntryIff(net, texts[i], e);
      var b, p :| Writes(texts[i], b, p) && e == EntryFor(b, p);
      CoversIff(b, p, x);
      assert WritesRule(texts[i], RawRule(b, p)) && Agrees(x, RawRule(b, p));
    }
    if i, rule :| 0 <= i < |texts| && WritesRule(texts[i], rule) && Agrees(x, rule) {
      var e := EntryFor(rule.address, rule.length);
      WrittenParses(net, texts[i], rule.address, rule.length);
      ParseEntriesHold(net, texts, e);
      CoversIff(rule.address, rule.length, x);
      assert e in ParseEntries(net, texts) && Covers(e, x);
    }
  }

  // ---------------------------------------------------------------- native IPv6

  /** The IPv6 entries: an address Node takes for one, alone or with a length in digits up to 128. */
  lemma {:induction false} NativeEntryIff(net: Platform, text: string, a: string, p: nat)
    requires forall n: nat :: n < TWO_32 ==> !net.isIpv6(Dotted(n))
    ensures var pieces := Split(Trim(text), '/');
            ParseEntry(net, text) == Some(Cidr6(a, p)) <==>
              && Trim(text) != "" && NormalizeIp(Trim(pieces[0])) == Some(a) && a != "" && net.isIpv6(a)
              && if |pieces| == 1 then p == 128
                 else
                   var length := Trim(pieces[1]);
                   length != "" && Decimal.AllDigits(length) && Decimal.Value(length) == p <= 128
  {
    var spelled := AddressOf(AddressPart(text));
    WholeLength();
    if spelled.Some? {
      NormalizedIs(AddressPart(text), spelled.value);
      SpelledParses(net, text, spelled.value);
    }
    hide Dotted, Ipv4, NormalizeIp, Trim, Split, ParseEntry4, Mask, Bits.And, Decimal.Value, Decimal.AllDigits;
    if spelled.None? && Trim(text) != "" { Entry4IsNoNative(Trim(text)); }
  }

  lemma WholeLength()
    ensures Decimal.AllDigits("128") && Decimal.Value("128") == 128
  {
    assert "128"[..2] == "12" && "12"[..1] == "1" && "1"[..0] == "";
    assert Decimal.Value("1") == 1 && Decimal.Value("12") == 12;
  }

  lemma Entry4IsNoNative(trimmed: string)
    ensures ParseEntry4(trimmed).Some? ==> ParseEntry4(trimmed).value.Cidr4?
  {
    hide Ipv4, Trim, Split, ParseInt, Mask, Bits.And;
  }

  /**
   An address that spells no IPv4 address passes exactly when nothing parses, or when Node takes it for IPv6 and
   finds it in the subnet of an IPv6 entry.
   */
  lemma {:induction false} NativeAllowedIff(net: Platform, ip: string, raw: string)
    requires AddressOf(ip) == None
    ensures var pieces := Split(raw, ',');
            IsAllowed(net, ip, ParseAllowlist(net, raw)) <==>
              || (forall i :: 0 <= i < |pieces| ==> ParseEntry(net, pieces[i]) == None)
              || (exists i, a, p ::
                    && 0 <= i < |pieces| && ParseEntry(net, pieces[i]) == Some(Cidr6(a, p))
                    && NormalizeIp(ip).Some? && NormalizeIp(ip).value != "" && net.isIpv6(NormalizeIp(ip).value)
                    && net.inSubnet(a, p, NormalizeIp(ip).value))
  {
    var pieces := Split(raw, ',');
    DisabledIff(net, raw);
    hide ParseEntry, Split, Trim, NormalizeIp, Ipv4, Covers;
    if ParseAllowlist(net, raw).Some? && NormalizeIp(ip).Some? {
      NativeEntries(net, pieces, NormalizeIp(ip).value);
    }
  }

  lemma {:induction false} NativeEntries(net: Platform, pieces: seq<string>, s: string)
    ensures (exists e :: e in ParseEntries(net, pieces) && e.Cidr6? && net.inSubnet(e.address, e.prefix, s)) <==>
              exists i, a, p ::
                0 <= i < |pieces| && ParseEntry(net, pieces[i]) == Some(Cidr6(a, p)) && net.inSubnet(a, p, s)
  {
    hide ParseEntry, ParseEntries;
    if e :| e in ParseEntries(net, pieces) && e.Cidr6? && net.inSubnet(e.address, e.prefix, s) {
      ParseEntriesHold(net, pieces, e);
      var i :| 0 <= i < |pieces| && ParseEntry(net, pieces[i]) == Some(e);
      assert ParseEntry(net, pieces[i]) == Some(Cidr6(e.address, e.prefix));
    }
    if i, a, p :| 0 <= i < |pieces| && ParseEntry(net, pieces[i]) == Some(Cidr6(a, p)) && net.inSubnet(a, p, s) {
      ParseEntriesHold(net, pieces, Cidr6(a, p));
    }
  }
}
