/**
 The query part of a cache key. Strings are their UTF-8 bytes, one char per
 byte, as encodeURIComponent sees them.
 */
module QueryKey {
  type Text = s: string | forall i :: 0 <= i < |s| ==> s[i] as int < 256

  type Query = seq<(Text, Text)>

  predicate Unreserved(c: char) {
    'A' <= c <= 'Z' || 'a' <= c <= 'z' || '0' <= c <= '9' || c in "-_.!~*'()"
  }

  function HexDigit(n: nat): char
    requires n < 16
  {
    "0123456789ABCDEF"[n]
  }

  function HexValue(c: char): nat {
    if '0' <= c <= '9' then c as int - '0' as int
    else if 'A' <= c <= 'F' then c as int - 'A' as int + 10
    else 0
  }

  type Byte = c: char | c as int < 256

  function EncodeByte(c: Byte): string {
    if Unreserved(c) then [c] else ['%', HexDigit(c as int / 16), HexDigit(c as int % 16)]
  }

  /** encodeURIComponent. */
  function Encode(s: Text): string {
    if s == "" then "" else EncodeByte(s[0]) + Encode(s[1..])
  }

  function Decode(t: string): string {
    if t == "" then ""
    else if t[0] == '%' && |t| >= 3 then
      var n := HexValue(t[1]) * 16 + HexValue(t[2]);
      (if n < 256 then [n as char] else "?") + Decode(t[3..])
    else [t[0]] + Decode(t[1..])
  }

  lemma HexRoundTrip(n: nat)
    requires n < 16
    ensures HexValue(HexDigit(n)) == n && HexDigit(n) !in "&=:"
  {
    assert forall k :: 0 <= k < 10 ==> "0123456789ABCDEF"[k] as int == '0' as int + k;
    assert forall k :: 10 <= k < 16 ==> "0123456789ABCDEF"[k] as int == 'A' as int + k - 10;
  }

  lemma {:induction false} DecodeByte(c: Byte, rest: string)
    ensures Decode(EncodeByte(c) + rest) == [c] + Decode(rest)
  {
    var t := EncodeByte(c) + rest;
    if Unreserved(c) {
      assert t[1..] == rest;
    } else {
      var n := c as int;
      HexRoundTrip(n / 16);
      HexRoundTrip(n % 16);
      assert t[0] == '%' && t[1] == HexDigit(n / 16) && t[2] == HexDigit(n % 16) && t[3..] == rest;
      assert n as char == c;
    }
  }

  lemma {:induction false} DecodeEncode(s: Text)
    ensures Decode(Encode(s)) == s
  {
    if s != "" {
      DecodeEncode(s[1..]);
      DecodeByte(s[0], Encode(s[1..]));
    }
  }

  /** The characters the key's own syntax uses never come out of the encoder. */
  lemma {:induction false} EncodeIsClean(s: Text)
    ensures forall c :: c in Encode(s) ==> c !in "&=:"
  {
    if s != "" {
      HexRoundTrip(s[0] as int / 16);
      HexRoundTrip(s[0] as int % 16);
      EncodeIsClean(s[1..]);
    }
  }

  /** A separator that occurs in neither prefix splits in one way only. */
  lemma SplitOnce(a: string, b: string, c: char, x: string, y: string)
    requires c !in a && c !in b && a + [c] + x == b + [c] + y
    ensures a == b && x == y
  {
    var l, r := a + [c] + x, b + [c] + y;
    assert l[|a|] == c && r[|b|] == c;
    assert forall k :: 0 <= k < |a| ==> l[k] == a[k];
    assert forall k :: 0 <= k < |b| ==> r[k] == b[k];
    assert |a| == |b|;
    assert a == l[..|a|] && b == r[..|b|];
    assert x == l[|a| + 1..] && y == r[|b| + 1..];
  }

  // ---------------------------------------------------------------- sorting the parameters

  /** Strict lexicographic order on code units. */
  predicate Less(a: string, b: string) {
    if b == "" then false
    else if a == "" then true
    else if a[0] != b[0] then a[0] < b[0]
    else Less(a[1..], b[1..])
  }

  lemma {:induction false} LessTotal(a: string, b: string)
    ensures Less(a, b) || Less(b, a) || a == b
    ensures !(Less(a, b) && Less(b, a)) && !Less(a, a)
  {
    if a != "" && b != "" && a[0] == b[0] {
      LessTotal(a[1..], b[1..]);
      assert a == [a[0]] + a[1..] && b == [b[0]] + b[1..];
    }
    if a != "" { LessTotal(a[1..], a[1..]); }
  }

  lemma {:induction false} LessTransitive(a: string, b: string, c: string)
    requires Less(a, b) && Less(b, c)
    ensures Less(a, c)
  {
    if a != "" && a[0] == b[0] && b[0] == c[0] {
      LessTransitive(a[1..], b[1..], c[1..]);
    }
  }

  function Insert(p: (Text, Text), q: Query): (r: Query)
    ensures |r| == |q| + 1
    ensures forall x :: x in r <==> x == p || x in q
  {
    if q == [] then [p]
    else if Less(q[0].0, p.0) then [q[0]] + Insert(p, q[1..])
    else [p] + q
  }

  function Sort(q: Query): (r: Query)
    ensures |r| == |q|
    ensures forall x :: x in r <==> x in q
  {
    if q == [] then [] else Insert(q[0], Sort(q[1..]))
  }

  /** Object keys are distinct. */
  predicate DistinctKeys(q: Query) {
    forall i, j :: 0 <= i < j < |q| ==> q[i].0 != q[j].0
  }

  ghost predicate Increasing(q: Query) {
    forall i, j :: 0 <= i < j < |q| ==> Less(q[i].0, q[j].0)
  }

  lemma {:induction false} InsertIncreasing(p: (Text, Text), q: Query)
    requires Increasing(q) && forall x :: x in q ==> x.0 != p.0
    ensures Increasing(Insert(p, q))
  {
    if q != [] {
      LessTotal(q[0].0, p.0);
      assert q[0] in q;
      if Less(q[0].0, p.0) {
        assert forall x :: x in q[1..] ==> x in q;
        InsertIncreasing(p, q[1..]);
        var r := Insert(p, q[1..]);
        forall k | 0 <= k < |r| ensures Less(q[0].0, r[k].0) {
          assert r[k] in r;
          if r[k] != p {
            var m :| 0 <= m < |q[1..]| && q[1..][m] == r[k];
            assert q[m + 1] == r[k];
          }
        }
      } else {
        forall k | 0 <= k < |q| ensures Less(p.0, q[k].0) {
          if k > 0 { LessTransitive(p.0, q[0].0, q[k].0); }
        }
      }
    }
  }

  lemma {:induction false} SortIncreasing(q: Query)
    requires DistinctKeys(q)
    ensures Increasing(Sort(q))
  {
    if q != [] {
      assert forall x :: x in q[1..] ==> exists k :: 1 <= k < |q| && q[k] == x;
      SortIncreasing(q[1..]);
      InsertIncreasing(q[0], Sort(q[1..]));
    }
  }

  lemma EmptyOrHolds(q: Query)
    ensures q == [] || q[0] in q
  {
  }

  /** An increasing listing is determined by what it lists. */
  lemma {:induction false} IncreasingUnique(a: Query, b: Query)
    requires Increasing(a) && Increasing(b) && forall x :: x in a <==> x in b
    ensures a == b
  {
    EmptyOrHolds(b);
    if a != [] {
      assert a[0] in b;
      assert b != [] && b[0] in b;
      assert b[0] in a;
      var i :| 0 <= i < |b| && b[i] == a[0];
      var j :| 0 <= j < |a| && a[j] == b[0];
      if i > 0 && j > 0 {
        LessTotal(a[0].0, b[0].0);
      }
      assert a[0] == b[0];
      LessTotal(a[0].0, a[0].0);
      forall x ensures x in a[1..] <==> x in b[1..] {
        TailMembers(a, x);
        TailMembers(b, x);
      }
      IncreasingUnique(a[1..], b[1..]);
      assert a == [a[0]] + a[1..] && b == [b[0]] + b[1..];
    }
  }

  lemma TailMembers(a: Query, x: (Text, Text))
    requires Increasing(a) && a != []
    ensures x in a[1..] <==> x in a && x != a[0]
  {
    LessTotal(a[0].0, a[0].0);
    if x in a && x != a[0] {
      var k :| 0 <= k < |a| && a[k] == x;
      assert a[1..][k - 1] == x;
    }
  }

  // ---------------------------------------------------------------- the query string

  function Parameter(p: (Text, Text)): string {
    Encode(p.0) + ['='] + Encode(p.1)
  }

  function JoinParameters(q: Query): string {
    if q == [] then ""
    else if |q| == 1 then Parameter(q[0])
    else Parameter(q[0]) + ['&'] + JoinParameters(q[1..])
  }

  function QueryString(q: Query): string {
    JoinParameters(Sort(q))
  }

  lemma ParameterIsClean(p: (Text, Text))
    ensures '&' !in Parameter(p) && ':' !in Parameter(p) && Parameter(p) != ""
  {
    EncodeIsClean(p.0);
    EncodeIsClean(p.1);
  }

  lemma ParameterInjective(p: (Text, Text), q: (Text, Text))
    requires Parameter(p) == Parameter(q)
    ensures p == q
  {
    EncodeIsClean(p.0);
    EncodeIsClean(q.0);
    SplitOnce(Encode(p.0), Encode(q.0), '=', Encode(p.1), Encode(q.1));
    DecodeEncode(p.0);
    DecodeEncode(q.0);
    DecodeEncode(p.1);
    DecodeEncode(q.1);
  }

  lemma {:induction false} JoinInjective(a: Query, b: Query)
    requires JoinParameters(a) == JoinParameters(b)
    ensures a == b
  {
    JoinShape(a);
    JoinShape(b);
    if |a| == 1 && |b| == 1 {
      ParameterInjective(a[0], b[0]);
    } else if |a| > 1 && |b| > 1 {
      ParameterIsClean(a[0]);
      ParameterIsClean(b[0]);
      SplitOnce(Parameter(a[0]), Parameter(b[0]), '&', JoinParameters(a[1..]), JoinParameters(b[1..]));
      ParameterInjective(a[0], b[0]);
      JoinInjective(a[1..], b[1..]);
      assert a == [a[0]] + a[1..] && b == [b[0]] + b[1..];
    }
  }

  /** The string tells no parameter, one parameter and several apart. */
  lemma {:induction false} JoinShape(q: Query)
    ensures JoinParameters(q) == "" <==> q == []
    ensures '&' in JoinParameters(q) <==> |q| > 1
  {
    if q != [] {
      ParameterIsClean(q[0]);
      if |q| > 1 { assert JoinParameters(q)[|Parameter(q[0])|] == '&'; }
    }
  }

  /** Two queries share a query string exactly when they carry the same parameters, in whatever order. */
  lemma QueryStringIdentifies(a: Query, b: Query)
    requires DistinctKeys(a) && DistinctKeys(b)
    ensures QueryString(a) == QueryString(b) <==> forall x :: x in a <==> x in b
  {
    SortIncreasing(a);
    SortIncreasing(b);
    if QueryString(a) == QueryString(b) {
      JoinInjective(Sort(a), Sort(b));
      assert forall x :: x in Sort(a) <==> x in Sort(b);
    }
    if forall x :: x in a <==> x in b {
      IncreasingUnique(Sort(a), Sort(b));
    }
  }
}
