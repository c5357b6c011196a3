/** The string operations of JavaScript that several components use. */
module Text {
  import opened Wrappers
  import Decimal

  /** The white space and line terminators that String.prototype.trim removes. */
  predicate IsSpace(c: char) {
    || '\t' <= c <= '\r' || c == ' ' || c == '\U{00A0}' || c == '\U{1680}' || '\U{2000}' <= c <= '\U{200A}'
    || c == '\U{2028}' || c == '\U{2029}' || c == '\U{202F}' || c == '\U{205F}' || c == '\U{3000}' || c == '\U{FEFF}'
  }

  function TrimStart(s: string): string {
    if s != "" && IsSpace(s[0]) then TrimStart(s[1..]) else s
  }

  function TrimEnd(s: string): string {
    if s != "" && IsSpace(s[|s| - 1]) then TrimEnd(s[..|s| - 1]) else s
  }

  function Trim(s: string): string {
    TrimStart(TrimEnd(s))
  }

  function Split(s: string, separator: char): (r: seq<string>)
    ensures |r| > 0
  {
    if s == "" then [""]
    else if s[0] == separator then [""] + Split(s[1..], separator)
    else
      var r := Split(s[1..], separator);
      [[s[0]] + r[0]] + r[1..]
  }

  function Join(parts: seq<string>, separator: char): string
    requires |parts| > 0
  {
    if |parts| == 1 then parts[0] else parts[0] + [separator] + Join(parts[1..], separator)
  }

  function LeadingDigits(s: string): (d: string)
    ensures Decimal.AllDigits(d) && d <= s
  {
    if s != "" && Decimal.IsDigit(s[0]) then [s[0]] + LeadingDigits(s[1..]) else ""
  }

  /** parseInt(s, 10): a sign and the longest run of digits, whatever follows them. */
  function ParseInt(s: string): Option<int> {
    var t := TrimStart(s);
    var negative := t != "" && t[0] == '-';
    var digits := LeadingDigits(if t != "" && (t[0] == '-' || t[0] == '+') then t[1..] else t);
    if digits == "" then None
    else
      var n: int := Decimal.Value(digits);
      Some(if negative then -n else n)
  }

  // ---------------------------------------------------------------- their laws

  lemma {:induction false} TrimEndDrops(s: string, c: char)
    requires IsSpace(c)
    ensures TrimEnd(s + [c]) == TrimEnd(s)
  {
    assert (s + [c])[..|s|] == s;
  }

  lemma {:induction false} TrimKeeps(s: string, trailer: string)
    requires |s| > 0 && !IsSpace(s[0]) && !IsSpace(s[|s| - 1])
    requires forall i :: 0 <= i < |trailer| ==> IsSpace(trailer[i])
    ensures Trim(s + trailer) == s
    decreases |trailer|
  {
    if trailer == "" {
      assert s + trailer == s;
    } else {
      var shorter := trailer[..|trailer| - 1];
      TrimEndDrops(s + shorter, trailer[|trailer| - 1]);
      assert s + trailer == s + shorter + [trailer[|trailer| - 1]];
      TrimKeeps(s, shorter);
    }
  }

  lemma {:induction false} TrimEndKeepsPrefix(s: string, t: string)
    requires |s| > 0 && !IsSpace(s[|s| - 1])
    ensures TrimEnd(s + t) == s + TrimEnd(t)
    decreases |t|
  {
    if t == "" {
      assert s + t == s;
    } else {
      assert (s + t)[|s + t| - 1] == t[|t| - 1];
      if IsSpace(t[|t| - 1]) {
        assert (s + t)[..|s + t| - 1] == s + t[..|t| - 1];
        TrimEndKeepsPrefix(s, t[..|t| - 1]);
      }
    }
  }

  lemma {:induction false} SplitFirst(part: string, separator: char, rest: string)
    requires separator !in part
    ensures Split(part, separator) == [part]
    ensures Split(part + [separator] + rest, separator) == [part] + Split(rest, separator)
  {
    var s := part + [separator] + rest;
    if part == "" {
      assert s[0] == separator && s[1..] == rest;
    } else {
      SplitFirst(part[1..], separator, rest);
      assert s[0] == part[0] && s[1..] == part[1..] + [separator] + rest;
      assert [part[0]] + part[1..] == part;
    }
  }

  /** Split undoes Join when no part holds the separator. */
  lemma {:induction false} SplitOfJoin(parts: seq<string>, separator: char)
    requires |parts| > 0 && forall i :: 0 <= i < |parts| ==> separator !in parts[i]
    ensures Split(Join(parts, separator), separator) == parts
  {
    if |parts| == 1 {
      SplitFirst(parts[0], separator, "");
    } else {
      SplitOfJoin(parts[1..], separator);
      SplitFirst(parts[0], separator, Join(parts[1..], separator));
    }
  }

  /** Join undoes Split, and no part holds the separator. */
  lemma {:induction false} JoinOfSplit(s: string, separator: char)
    ensures Join(Split(s, separator), separator) == s
    ensures forall i :: 0 <= i < |Split(s, separator)| ==> separator !in Split(s, separator)[i]
  {
    if s != "" {
      JoinOfSplit(s[1..], separator);
      var r := Split(s[1..], separator);
      if s[0] == separator {
        assert ([""] + r)[1..] == r;
      } else {
        var first := [s[0]] + r[0];
        assert ([first] + r[1..])[1..] == r[1..];
      }
    }
  }

  lemma {:induction false} LeadingDigitsOfDigits(s: string)
    requires Decimal.AllDigits(s)
    ensures LeadingDigits(s) == s
  {
    if s != "" {
      LeadingDigitsOfDigits(s[1..]);
    }
  }

  lemma {:induction false} ParseIntOfDigits(s: string)
    requires s != "" && Decimal.AllDigits(s)
    ensures ParseInt(s) == Some(Decimal.Value(s))
  {
    LeadingDigitsOfDigits(s);
    assert Decimal.IsDigit(s[0]);
    hide LeadingDigits, Decimal.Value;
    assert TrimStart(s) == s;
  }

  lemma {:induction false} ParseIntRoundTrip(n: nat)
    ensures ParseInt(Decimal.ToString(n)) == Some(n)
  {
    Decimal.ToStringRoundTrip(n);
    hide Decimal.ToString, ParseInt;
    ParseIntOfDigits(Decimal.ToString(n));
  }

  lemma {:induction false} TrimStartEnds(s: string)
    ensures var t := TrimStart(s);
            (t == "" || !IsSpace(t[0])) && (t != "" ==> s != "" && t[|t| - 1] == s[|s| - 1])
  {
    if s != "" && IsSpace(s[0]) {
      TrimStartEnds(s[1..]);
    }
  }

  lemma {:induction false} TrimEndEnds(s: string)
    ensures var t := TrimEnd(s);
            (t == "" || !IsSpace(t[|t| - 1])) && t <= s && forall i :: |t| <= i < |s| ==> IsSpace(s[i])
  {
    if s != "" && IsSpace(s[|s| - 1]) {
      TrimEndEnds(s[..|s| - 1]);
    }
  }

  lemma TrimTwice(s: string)
    ensures Trim(Trim(s)) == Trim(s)
  {
    TrimEndEnds(s);
    TrimStartEnds(TrimEnd(s));
  }

  lemma {:induction false} LeadingStops(s: string, rest: string)
    requires rest == "" || !Decimal.IsDigit(rest[0])
    ensures LeadingDigits(s + rest) == LeadingDigits(s)
  {
    if s == "" {
      assert s + rest == rest;
    } else {
      LeadingStops(s[1..], rest);
      assert (s + rest)[0] == s[0] && (s + rest)[1..] == s[1..] + rest;
    }
  }

  lemma {:induction false} AllSpaceTrims(s: string)
    requires forall i :: 0 <= i < |s| ==> IsSpace(s[i])
    ensures TrimStart(s) == ""
  {
    if s != "" {
      AllSpaceTrims(s[1..]);
    }
  }

  lemma SkipsSpace(s: string)
    requires s != "" && IsSpace(s[0])
    ensures ParseInt(s) == ParseInt(s[1..])
  {
  }

  lemma NothingToParse(rest: string)
    requires rest == "" || rest[0] == '/' || forall i :: 0 <= i < |rest| ==> IsSpace(rest[i])
    ensures ParseInt(rest) == None
  {
    if rest == "" || rest[0] != '/' { AllSpaceTrims(rest); }
  }

  lemma NumberStops(s: string, rest: string)
    requires s != "" && !IsSpace(s[0]) && (rest == "" || !Decimal.IsDigit(rest[0]))
    ensures ParseInt(s + rest) == ParseInt(s)
  {
    var (t, signed) := (s + rest, s[0] == '-' || s[0] == '+');
    assert t[0] == s[0] && t[1..] == s[1..] + rest;
    assert TrimStart(t) == t && TrimStart(s) == s;
    LeadingStops(if signed then s[1..] else s, rest);
    hide LeadingDigits, TrimStart, Decimal.Value, IsSpace;
  }

  /** A slash, or white space up to the end, ends the number. */
  lemma {:induction false} ParseIntStops(s: string, rest: string)
    requires rest == "" || rest[0] == '/' || forall i :: 0 <= i < |rest| ==> IsSpace(rest[i])
    ensures ParseInt(s + rest) == ParseInt(s)
    decreases |s|
  {
    hide ParseInt, IsSpace, Decimal.IsDigit;
    if s == "" {
      assert s + rest == rest;
      NothingToParse(rest);
      NothingToParse("");
    } else if IsSpace(s[0]) {
      assert (s + rest)[0] == s[0] && (s + rest)[1..] == s[1..] + rest;
      SkipsSpace(s);
      SkipsSpace(s + rest);
      ParseIntStops(s[1..], rest);
    } else {
      NotADigit(rest);
      NumberStops(s, rest);
    }
  }

  lemma NotADigit(rest: string)
    requires rest == "" || rest[0] == '/' || forall i :: 0 <= i < |rest| ==> IsSpace(rest[i])
    ensures rest == "" || !Decimal.IsDigit(rest[0])
  {
  }

  lemma {:induction false} ParseIntTrimsStart(s: string)
    ensures ParseInt(TrimStart(s)) == ParseInt(s)
  {
    if s != "" && IsSpace(s[0]) {
      ParseIntTrimsStart(s[1..]);
      SkipsSpace(s);
    }
  }

  /** Trimming makes no difference to parseInt. */
  lemma {:induction false} ParseIntTrims(s: string)
    ensures ParseInt(TrimEnd(s)) == ParseInt(s) && ParseInt(Trim(s)) == ParseInt(s)
  {
    TrimEndEnds(s);
    hide ParseInt, IsSpace, TrimEnd, TrimStart;
    var t := TrimEnd(s);
    assert t + s[|t|..] == s;
    ParseIntStops(t, s[|t|..]);
    ParseIntTrimsStart(t);
  }
}
