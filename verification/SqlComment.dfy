/** The sqlcommenter prefix of adapters/otelpgx: its printer, a parser that inverts it, and the
    traceparent it carries. A Go string is a sequence of bytes, here characters below 256. */
module SqlComment {

  type Bytes = s: string | forall i | 0 <= i < |s| :: s[i] as int < 256

  datatype Option<+T> = None | Some(value: T)

  datatype Fields = Fields(application: Bytes, route: Bytes, traceparent: Bytes)

  const NO_FIELDS := Fields("", "", "")

  // ---------- escaping ----------

  /** The unreserved set of section 2.3 of RFC 3986. */
  predicate Unreserved(c: char) {
    'a' <= c <= 'z' || 'A' <= c <= 'Z' || '0' <= c <= '9' || c in "-_.~"
  }

  function Hex(n: int): char
    requires 0 <= n < 16
  {
    "0123456789ABCDEF"[n]
  }

  /** A percent-encoded octet, section 2.1 of RFC 3986. */
  function Percent(c: char): string
    requires c as int < 256
  {
    ['%', Hex(c as int / 16), Hex(c as int % 16)]
  }

  /** net/url.QueryEscape. */
  function QueryEscape(s: Bytes): string {
    if s == "" then ""
    else (if s[0] == ' ' then "+" else if Unreserved(s[0]) then [s[0]] else Percent(s[0])) + QueryEscape(s[1..])
  }

  /** strings.ReplaceAll(s, "+", "%20"). */
  function ReplacePlus(s: string): string {
    if s == "" then "" else (if s[0] == '+' then "%20" else [s[0]]) + ReplacePlus(s[1..])
  }

  /** Percent-encoding in one pass: unreserved bytes stand for themselves, all others are octets. */
  function PercentEncode(s: Bytes): string {
    if s == "" then "" else (if Unreserved(s[0]) then [s[0]] else Percent(s[0])) + PercentEncode(s[1..])
  }

  lemma {:induction false} ReplacePlusOf(a: string, b: string)
    ensures ReplacePlus(a + b) == ReplacePlus(a) + ReplacePlus(b)
  {
    if a == "" {
      assert a + b == b;
    } else {
      var h := if a[0] == '+' then "%20" else [a[0]];
      calc {
        ReplacePlus(a + b);
        { assert (a + b)[0] == a[0] && (a + b)[1..] == a[1..] + b; }
        h + ReplacePlus(a[1..] + b);
        { ReplacePlusOf(a[1..], b); }
        h + (ReplacePlus(a[1..]) + ReplacePlus(b));
        (h + ReplacePlus(a[1..])) + ReplacePlus(b);
        ReplacePlus(a) + ReplacePlus(b);
      }
    }
  }

  lemma {:induction false} ReplacePlusKeeps(s: string)
    requires '+' !in s
    ensures ReplacePlus(s) == s
  {
    if s != "" {
      assert s[0] in s;
      ReplacePlusKeeps(s[1..]);
    }
  }

  lemma HexIsUnreserved(n: int)
    requires 0 <= n < 16
    ensures Unreserved(Hex(n))
  {
  }

  lemma EscapedOctet(c: char)
    requires c as int < 256
    ensures ReplacePlus(if c == ' ' then "+" else if Unreserved(c) then [c] else Percent(c)) ==
            if Unreserved(c) then [c] else Percent(c)
  {
    if c == ' ' {
      assert ReplacePlus("+") == "%20" + ReplacePlus("");
    } else if Unreserved(c) {
      ReplacePlusKeeps([c]);
    } else {
      HexIsUnreserved(c as int / 16);
      HexIsUnreserved(c as int % 16);
      ReplacePlusKeeps(Percent(c));
    }
  }

  /** QueryEscape followed by the rewriting of `+` is percent-encoding. */
  lemma {:induction false} EscapingIsPercentEncoding(s: Bytes)
    ensures ReplacePlus(QueryEscape(s)) == PercentEncode(s)
  {
    if s != "" {
      var head := if s[0] == ' ' then "+" else if Unreserved(s[0]) then [s[0]] else Percent(s[0]);
      EscapingIsPercentEncoding(s[1..]);
      ReplacePlusOf(head, QueryEscape(s[1..]));
      EscapedOctet(s[0]);
    }
  }

  /** The set, as bytes of ASCII: letters, digits, hyphen, period, underscore and tilde. */
  lemma UnreservedAre(c: char)
    ensures var b := c as int;
      Unreserved(c) <==> 65 <= b <= 90 || 97 <= b <= 122 || 48 <= b <= 57 || b == 45 || b == 46 || b == 95 || b == 126
  {
  }

  predicate UpperHex(c: char) {
    '0' <= c <= '9' || 'A' <= c <= 'F'
  }

  /** Octets are written with upper-case digits, as section 2.1 of RFC 3986 asks of producers. */
  lemma {:induction false} OctetsAreUpper(s: Bytes, i: nat)
    requires i < |PercentEncode(s)| && PercentEncode(s)[i] == '%'
    ensures i + 2 < |PercentEncode(s)| && UpperHex(PercentEncode(s)[i + 1]) && UpperHex(PercentEncode(s)[i + 2])
  {
    var e, rest := PercentEncode(s), PercentEncode(s[1..]);
    if Unreserved(s[0]) {
      assert e == [s[0]] + rest;
      OctetsAreUpper(s[1..], i - 1);
    } else {
      assert e == Percent(s[0]) + rest;
      UpperDigit(s[0] as int / 16);
      UpperDigit(s[0] as int % 16);
      if i >= 3 { OctetsAreUpper(s[1..], i - 3); }
    }
  }

  lemma UpperDigit(n: int)
    requires 0 <= n < 16
    ensures UpperHex(Hex(n))
  {
  }

  /** Everything an escaped value can contain. */
  predicate Escaped(s: string) {
    forall c | c in s :: Unreserved(c) || c == '%'
  }

  lemma {:induction false} EncodedIsEscaped(s: Bytes)
    ensures Escaped(PercentEncode(s))
  {
    if s != "" {
      EncodedIsEscaped(s[1..]);
      HexIsUnreserved(s[0] as int / 16);
      HexIsUnreserved(s[0] as int % 16);
    }
  }

  function HexValue(c: char): Option<int> {
    if '0' <= c <= '9' then Some(c as int - '0' as int)
    else if 'A' <= c <= 'F' then Some(c as int - 'A' as int + 10)
    else if 'a' <= c <= 'f' then Some(c as int - 'a' as int + 10)
    else None
  }

  function HexByte(hi: char, lo: char): Option<char> {
    match (HexValue(hi), HexValue(lo))
    case (Some(h), Some(l)) => if 0 <= 16 * h + l < 256 then Some((16 * h + l) as char) else None
    case _ => None
  }

  function PercentDecode(s: string): Option<string> {
    if s == "" then Some("")
    else if s[0] != '%' then
      match PercentDecode(s[1..])
      case None => None
      case Some(rest) => Some([s[0]] + rest)
    else if |s| < 3 then None
    else
      match (HexByte(s[1], s[2]), PercentDecode(s[3..]))
      case (Some(c), Some(rest)) => Some([c] + rest)
      case _ => None
  }

  lemma HexRoundTrip(c: char)
    requires c as int < 256
    ensures HexByte(Hex(c as int / 16), Hex(c as int % 16)) == Some(c)
  {
    var h, l := c as int / 16, c as int % 16;
    HexDigitRoundTrip(h);
    HexDigitRoundTrip(l);
    assert 16 * h + l == c as int;
  }

  lemma HexDigitRoundTrip(n: int)
    requires 0 <= n < 16
    ensures HexValue(Hex(n)) == Some(n)
  {
  }

  lemma {:induction false} DecodeInverts(s: Bytes)
    ensures PercentDecode(PercentEncode(s)) == Option<string>.Some(s)
  {
    if s != "" {
      DecodeInverts(s[1..]);
      var e, rest := PercentEncode(s), PercentEncode(s[1..]);
      if Unreserved(s[0]) {
        assert e[1..] == rest;
      } else {
        HexRoundTrip(s[0]);
        assert e[3..] == rest;
      }
      assert [s[0]] + s[1..] == s;
    }
  }

  // ---------- the printer ----------

  function Pair(key: string, value: Bytes): string {
    key + "='" + ReplacePlus(QueryEscape(value)) + "'"
  }

  function PairIfSet(key: string, value: Bytes): seq<string> {
    if value == "" then [] else [Pair(key, value)]
  }

  function Pairs(f: Fields): seq<string> {
    PairIfSet("application", f.application) + PairIfSet("route", f.route) + PairIfSet("traceparent", f.traceparent)
  }

  /** strings.Join(ps, ","). */
  function Commas(ps: seq<string>): string {
    if ps == [] then "" else if |ps| == 1 then ps[0] else ps[0] + "," + Commas(ps[1..])
  }

  function Encode(f: Fields): string {
    if Pairs(f) == [] then "" else "/*" + Commas(Pairs(f)) + "*/"
  }

  /** The order of sort.Strings: byte by byte, a prefix first. */
  predicate LessEq(a: string, b: string) {
    if a == "" then true
    else if b == "" then false
    else if a[0] != b[0] then a[0] < b[0]
    else LessEq(a[1..], b[1..])
  }

  predicate Sorted(ps: seq<string>) {
    forall i, j | 0 <= i < j < |ps| :: LessEq(ps[i], ps[j])
  }

  lemma {:induction false} LessEqTotal(a: string, b: string)
    ensures LessEq(a, b) || LessEq(b, a)
    ensures LessEq(a, b) && LessEq(b, a) ==> a == b
  {
    if a != "" && b != "" && a[0] == b[0] {
      LessEqTotal(a[1..], b[1..]);
      assert a == [a[0]] + a[1..] && b == [b[0]] + b[1..];
    }
  }

  lemma {:induction false} LessEqTransitive(a: string, b: string, c: string)
    requires LessEq(a, b) && LessEq(b, c)
    ensures LessEq(a, c)
  {
    if a != "" && b != "" && c != "" && a[0] == b[0] == c[0] {
      LessEqTransitive(a[1..], b[1..], c[1..]);
    }
  }

  lemma FirstIsLeast(a: seq<string>, b: seq<string>)
    requires Sorted(a) && a != [] && b != [] && multiset(a) == multiset(b)
    ensures LessEq(a[0], b[0])
  {
    assert b[0] in multiset(b);
    var j :| 0 <= j < |a| && a[j] == b[0];
    LessEqTotal(a[0], a[0]);
  }

  lemma TailMultiset(a: seq<string>)
    requires a != []
    ensures multiset(a[1..]) == multiset(a) - multiset{a[0]}
  {
    assert a == [a[0]] + a[1..];
  }

  /** Any sort, sort.Strings included, gives the same result. */
  lemma {:induction false} SortedIsUnique(a: seq<string>, b: seq<string>)
    requires Sorted(a) && Sorted(b) && multiset(a) == multiset(b)
    ensures a == b
  {
    assert |multiset(a)| == |a| && |multiset(b)| == |b|;
    if a != [] {
      FirstIsLeast(a, b);
      FirstIsLeast(b, a);
      LessEqTotal(a[0], b[0]);
      TailMultiset(a);
      TailMultiset(b);
      assert a[0] == b[0];
      SortedIsUnique(a[1..], b[1..]);
      assert a == [a[0]] + a[1..] && b == [b[0]] + b[1..];
    }
  }

  lemma PairsAreSorted(f: Fields)
    ensures Sorted(Pairs(f))
  {
    forall p, q: Bytes ensures LessEq(Pair("application", p), Pair("route", q)) {
      assert Pair("application", p)[0] == 'a' && Pair("route", q)[0] == 'r';
    }
    forall p, q: Bytes ensures LessEq(Pair("application", p), Pair("traceparent", q)) {
      assert Pair("application", p)[0] == 'a' && Pair("traceparent", q)[0] == 't';
    }
    forall p, q: Bytes ensures LessEq(Pair("route", p), Pair("traceparent", q)) {
      assert Pair("route", p)[0] == 'r' && Pair("traceparent", q)[0] == 't';
    }
  }

  /** The call of sort.Strings in encode changes nothing. */
  lemma SortChangesNothing(f: Fields, sorted: seq<string>)
    requires Sorted(sorted) && multiset(sorted) == multiset(Pairs(f))
    ensures sorted == Pairs(f)
  {
    PairsAreSorted(f);
    SortedIsUnique(sorted, Pairs(f));
  }

  function Insert(b: seq<string>, x: string): seq<string> {
    if b == [] then [x]
    else
      var last := |b| - 1;
      if LessEq(b[last], x) then b + [x] else Insert(b[..last], x) + [b[last]]
  }

  lemma {:induction false} InsertHas(b: seq<string>, x: string)
    ensures multiset(Insert(b, x)) == multiset(b) + multiset{x}
  {
    if b != [] {
      InsertHas(b[..|b| - 1], x);
      assert b == b[..|b| - 1] + [b[|b| - 1]];
    }
  }

  lemma SortedAppend(b: seq<string>, x: string)
    requires Sorted(b) && forall p | p in b :: LessEq(p, x)
    ensures Sorted(b + [x])
  {
    forall i, j | 0 <= i < j < |b + [x]| ensures LessEq((b + [x])[i], (b + [x])[j]) {
      if j == |b| { assert b[i] in b; }
    }
  }

  lemma {:induction false} InsertSorts(b: seq<string>, x: string)
    requires Sorted(b)
    ensures Sorted(Insert(b, x))
  {
    if b != [] {
      var last := |b| - 1;
      LessEqTotal(b[last], x);
      LessEqTotal(b[last], b[last]);
      if LessEq(b[last], x) {
        forall p | p in b ensures LessEq(p, x) { LessEqTransitive(p, b[last], x); }
        SortedAppend(b, x);
      } else {
        InsertSorts(b[..last], x);
        InsertHas(b[..last], x);
        forall p | p in Insert(b[..last], x) ensures LessEq(p, b[last]) {
          assert p in multiset(Insert(b[..last], x));
          assert p in b[..last] || p == x;
        }
        SortedAppend(Insert(b[..last], x), b[last]);
      }
    }
  }

  method SortStrings(a: seq<string>) returns (b: seq<string>)
    ensures Sorted(b) && multiset(b) == multiset(a)
  {
    b := [];
    for i := 0 to |a|
      invariant Sorted(b) && multiset(b) == multiset(a[..i])
    {
      InsertSorts(b, a[i]);
      InsertHas(b, a[i]);
      assert a[..i + 1] == a[..i] + [a[i]];
      b := Insert(b, a[i]);
    }
    assert a[..|a|] == a;
  }

  /** The statements of encode. */
  method EncodeComment(f: Fields) returns (r: string)
    ensures r == Encode(f)
  {
    var pairs := AllPairs(f);
    if |pairs| == 0 { return ""; }
    pairs := SortStrings(pairs);
    SortChangesNothing(f, pairs);
    r := "/*";
    r := r + Commas(pairs);
    r := r + "*/";
  }

  method AllPairs(f: Fields) returns (pairs: seq<string>)
    ensures pairs == Pairs(f)
  {
    pairs := [];
    pairs := Add(pairs, "application", f.application);
    pairs := Add(pairs, "route", f.route);
    pairs := Add(pairs, "traceparent", f.traceparent);
  }

  method Add(pairs: seq<string>, k: string, v: Bytes) returns (r: seq<string>)
    ensures r == pairs + PairIfSet(k, v)
  {
    if v == "" { return pairs; }
    r := pairs + [k + "='" + ReplacePlus(QueryEscape(v)) + "'"];
  }

  /** The comment is left out exactly when all three fields are empty; a missing span alone does not do it. */
  lemma OmittedWhen(f: Fields)
    ensures Encode(f) == "" <==> f == NO_FIELDS
  {
  }

  // ---------- the parser ----------

  /** The first position of c, or |s|. */
  function Find(s: string, c: char): (i: nat)
    ensures i <= |s| && c !in s[..i] && (i < |s| ==> s[i] == c)
  {
    if s == "" || s[0] == c then 0 else Find(s[1..], c) + 1
  }

  function Split(s: string): seq<string>
    decreases |s|
  {
    var i := Find(s, ',');
    if i == |s| then [s] else [s[..i]] + Split(s[i + 1..])
  }

  /** key='value', with the value percent-decoded. */
  function ParsePair(p: string): Option<(string, string)> {
    var i := Find(p, '=');
    if |p| < i + 3 || p[i + 1] != '\'' || p[|p| - 1] != '\'' then None
    else
      match PercentDecode(p[i + 2..|p| - 1])
      case None => None
      case Some(value) => Some((p[..i], value))
  }

  predicate IsBytes(s: string) {
    forall i | 0 <= i < |s| :: s[i] as int < 256
  }

  function SetField(f: Fields, key: string, value: string): Option<Fields> {
    if !IsBytes(value) then None
    else if key == "application" && f.application == "" then Some(f.(application := value))
    else if key == "route" && f.route == "" then Some(f.(route := value))
    else if key == "traceparent" && f.traceparent == "" then Some(f.(traceparent := value))
    else None
  }

  function ParsePairs(ps: seq<string>, f: Fields): Option<Fields> {
    if ps == [] then Some(f)
    else
      match ParsePair(ps[0])
      case None => None
      case Some(kv) =>
        match SetField(f, kv.0, kv.1)
        case None => None
        case Some(f') => ParsePairs(ps[1..], f')
  }

  function ParseComment(s: string): Option<Fields> {
    if s == "" then Some(NO_FIELDS)
    else if |s| < 4 || s[..2] != "/*" || s[|s| - 2..] != "*/" then None
    else ParsePairs(Split(s[2..|s| - 2]), NO_FIELDS)
  }

  lemma {:induction false} FindSkips(a: string, b: string, c: char)
    requires c !in a
    ensures Find(a + [c] + b, c) == |a|
  {
    if a != "" {
      assert a[0] in a;
      FindSkips(a[1..], b, c);
      assert (a + [c] + b)[1..] == a[1..] + [c] + b;
    }
  }

  lemma {:induction false} FindNothing(s: string, c: char)
    requires c !in s
    ensures Find(s, c) == |s|
  {
    if s != "" {
      assert s[0] in s;
      FindNothing(s[1..], c);
    }
  }

  lemma {:induction false} SplitInverts(ps: seq<string>)
    requires ps != [] && forall p | p in ps :: ',' !in p
    ensures Split(Commas(ps)) == ps
  {
    if |ps| == 1 {
      FindNothing(ps[0], ',');
    } else {
      var rest := Commas(ps[1..]);
      FindSkips(ps[0], rest, ',');
      var s := Commas(ps);
      assert s == ps[0] + [','] + rest;
      assert s[..|ps[0]|] == ps[0] && s[|ps[0]| + 1..] == rest;
      SplitInverts(ps[1..]);
      assert [ps[0]] + ps[1..] == ps;
    }
  }

  lemma PairParses(key: string, value: Bytes)
    requires '=' !in key
    ensures ParsePair(Pair(key, value)) == Some((key, value))
  {
    EscapingIsPercentEncoding(value);
    var e := PercentEncode(value);
    var p := Pair(key, value);
    assert p == key + ['='] + ("'" + e + "'");
    FindSkips(key, "'" + e + "'", '=');
    assert Find(p, '=') == |key|;
    assert p[..|key|] == key && p[|key| + 1] == '\'' && p[|key| + 2..|p| - 1] == e;
    DecodeInverts(value);
  }

  /** A pair begins with a letter and holds neither a separator nor a star. */
  predicate PlainPair(p: string) {
    p != "" && Unreserved(p[0]) && ',' !in p && '*' !in p
  }

  lemma PairIsPlain(key: string, value: Bytes)
    requires key != "" && Escaped(key) && Unreserved(key[0])
    ensures PlainPair(Pair(key, value))
  {
    EscapingIsPercentEncoding(value);
    EncodedIsEscaped(value);
  }

  lemma PairsArePlain(f: Fields)
    ensures forall p | p in Pairs(f) :: PlainPair(p)
  {
    PairIsPlain("application", f.application);
    PairIsPlain("route", f.route);
    PairIsPlain("traceparent", f.traceparent);
  }

  lemma ParsePairsStep(key: string, value: Bytes, rest: seq<string>, f: Fields)
    requires key in {"application", "route", "traceparent"}
    requires SetField(f, key, value).Some?
    requires value == "" ==> SetField(f, key, value).value == f
    ensures ParsePairs(PairIfSet(key, value) + rest, f) == ParsePairs(rest, SetField(f, key, value).value)
  {
    if value == "" {
      assert PairIfSet(key, value) + rest == rest;
    } else {
      PairParses(key, value);
      assert ([Pair(key, value)] + rest)[1..] == rest;
    }
  }

  lemma PairsParse(f: Fields)
    ensures ParsePairs(Pairs(f), NO_FIELDS) == Some(f)
  {
    var tp := PairIfSet("traceparent", f.traceparent);
    var rt := PairIfSet("route", f.route) + tp;
    assert Pairs(f) == PairIfSet("application", f.application) + rt;
    ParsePairsStep("application", f.application, rt, NO_FIELDS);
    ParsePairsStep("route", f.route, tp, Fields(f.application, "", ""));
    assert tp + [] == tp;
    ParsePairsStep("traceparent", f.traceparent, [], Fields(f.application, f.route, ""));
  }

  lemma Unwrap(body: string)
    ensures var s := "/*" + body + "*/"; s[..2] == "/*" && s[|s| - 2..] == "*/" && s[2..|s| - 2] == body
  {
  }

  /** Every set of byte-string fields is read back from its comment, an absent field as an empty one. */
  lemma CommentRoundTrip(f: Fields)
    ensures ParseComment(Encode(f)) == Some(f)
  {
    if Pairs(f) != [] {
      PairsArePlain(f);
      SplitInverts(Pairs(f));
      Unwrap(Commas(Pairs(f)));
      PairsParse(f);
    }
  }

  // ---------- the comment in front of the statement ----------

  /** The first lines of config.before. */
  function Before(f: Fields, sql: string): string {
    var prefix := Encode(f);
    if prefix != "" then prefix + sql else sql
  }

  /** The statement follows the comment, if there is one, and is not changed. */
  lemma StatementFollows(f: Fields, sql: string)
    ensures Before(f, sql) == Encode(f) + sql
    ensures f == NO_FIELDS ==> Before(f, sql) == sql
  {
    assert "" + sql == sql;
  }

  lemma CommasOf(p: string, q: string, s: string)
    ensures Commas([p, q]) == p + "," + q
    ensures Commas([p, q, s]) == p + "," + q + "," + s
  {
    assert [p, q][1..] == [q] && [p, q, s][1..] == [q, s] && [q, s][1..] == [s];
    assert Commas([q, s]) == q + "," + s;
    assert p + "," + (q + "," + s) == p + "," + q + "," + s;
  }

  /** The format, for values that need no escaping. */
  lemma PlainFormat(a: Bytes, r: Bytes, t: Bytes)
    requires a != "" && r != "" && t != ""
    requires forall c | c in a || c in r || c in t :: Unreserved(c)
    ensures Encode(Fields(a, r, t)) ==
      "/*" + ("application='" + a + "'" + "," + ("route='" + r + "'") + "," + ("traceparent='" + t + "'")) + "*/"
    ensures Encode(Fields("", "", t)) == "/*" + ("traceparent='" + t + "'") + "*/"
  {
    PlainPairIs("application", a);
    PlainPairIs("route", r);
    PlainPairIs("traceparent", t);
    var p, q, s := Pair("application", a), Pair("route", r), Pair("traceparent", t);
    CommasOf(p, q, s);
    assert Pairs(Fields(a, r, t)) == [p, q, s];
    assert Pairs(Fields("", "", t)) == [s];
    assert "application" + "='" == "application='" && "route" + "='" == "route='" && "traceparent" + "='" == "traceparent='";
  }

  lemma PlainPairIs(key: string, value: Bytes)
    requires forall c | c in value :: Unreserved(c)
    ensures Pair(key, value) == key + "='" + value + "'"
  {
    EscapingIsPercentEncoding(value);
    UnreservedIsFixed(value);
  }

  lemma {:induction false} CommasAreClean(ps: seq<string>)
    requires forall p | p in ps :: '*' !in p
    ensures '*' !in Commas(ps)
    ensures ps != [] && ps[0] != "" ==> Commas(ps) != "" && Commas(ps)[0] == ps[0][0]
  {
    if |ps| > 1 { CommasAreClean(ps[1..]); }
  }

  predicate ClosesAt(s: string, i: int) {
    0 <= i && i + 1 < |s| && s[i] == '*' && s[i + 1] == '/'
  }

  lemma BodyIsClean(f: Fields)
    requires f != NO_FIELDS
    ensures var body := Commas(Pairs(f)); '*' !in body && body != "" && body[0] != '/'
  {
    PairsArePlain(f);
    CommasAreClean(Pairs(f));
    var first := Pairs(f)[0];
    assert first in Pairs(f);
    assert PlainPair(first);
  }

  /** In a prefixed statement the first end of a comment is the end of the prefix, whatever the SQL. */
  lemma FirstClose(f: Fields, sql: string, i: int)
    requires f != NO_FIELDS && i < |Encode(f)| - 1
    ensures ClosesAt(Before(f, sql), i) <==> i == |Encode(f)| - 2
  {
    var body := Commas(Pairs(f));
    BodyIsClean(f);
    var e, s := Encode(f), Before(f, sql);
    assert e == "/*" + body + "*/" && s == e + sql;
    if 2 <= i < |e| - 2 {
      assert s[i] == body[i - 2];
      assert body[i - 2] in body;
    }
    if i == 1 { assert s[2] == body[0]; }
  }

  /** Cutting at the first end of a comment gives back the fields and the statement. */
  lemma CutRecovers(f: Fields, sql: string, cut: int)
    requires f != NO_FIELDS
    requires ClosesAt(Before(f, sql), cut) && forall i | 0 <= i < cut :: !ClosesAt(Before(f, sql), i)
    ensures cut + 2 <= |Before(f, sql)|
    ensures ParseComment(Before(f, sql)[..cut + 2]) == Some(f)
    ensures Before(f, sql)[cut + 2..] == sql
  {
    var e, s := Encode(f), Before(f, sql);
    FirstClose(f, sql, |e| - 2);
    if cut < |e| - 1 { FirstClose(f, sql, cut); }
    assert cut == |e| - 2;
    assert s[..cut + 2] == e;
    CommentRoundTrip(f);
  }

  // ---------- traceparent ----------

  datatype SpanContext = SpanContext(traceId: Bytes, spanId: Bytes, flags: char)

  /** Ids of 16 and 8 bytes and one byte of flags: what the Go types guarantee. */
  predicate Sized(sc: SpanContext) {
    |sc.traceId| == 16 && |sc.spanId| == 8 && sc.flags as int < 256
  }

  predicate NonZero(id: Bytes) {
    exists i | 0 <= i < |id| :: id[i] as int != 0
  }

  function LowHex(n: int): char
    requires 0 <= n < 16
  {
    "0123456789abcdef"[n]
  }

  function HexString(b: Bytes): (h: string)
    ensures |h| == 2 * |b|
  {
    if b == "" then "" else [LowHex(b[0] as int / 16), LowHex(b[0] as int % 16)] + HexString(b[1..])
  }

  /** traceparentFromContext: nothing for an invalid span context. */
  function Traceparent(sc: SpanContext): string
    requires Sized(sc)
  {
    if !(NonZero(sc.traceId) && NonZero(sc.spanId)) then ""
    else "00-" + HexString(sc.traceId) + "-" + HexString(sc.spanId) + "-" + HexString([sc.flags])
  }

  function HexParse(h: string): Option<string> {
    if h == "" then Some("")
    else if |h| == 1 then None
    else
      match (HexByte(h[0], h[1]), HexParse(h[2..]))
      case (Some(c), Some(rest)) => Some([c] + rest)
      case _ => None
  }

  /** The four fields of version 00, section 3.2 of W3C Trace Context, cut out by position. */
  function ParseTraceparent(s: string): Option<(string, string, string)> {
    if |s| != 55 || s[..3] != "00-" || s[35] != '-' || s[52] != '-' then None
    else
      match (HexParse(s[3..35]), HexParse(s[36..52]), HexParse(s[53..]))
      case (Some(traceId), Some(spanId), Some(flags)) => Some((traceId, spanId, flags))
      case _ => None
  }

  lemma LowHexDigit(n: int)
    requires 0 <= n < 16
    ensures HexValue(LowHex(n)) == Some(n) && Unreserved(LowHex(n))
  {
  }

  lemma LowHexByte(c: char)
    requires c as int < 256
    ensures var hi, lo := LowHex(c as int / 16), LowHex(c as int % 16);
      HexByte(hi, lo) == Some(c) && Unreserved(hi) && Unreserved(lo)
  {
    var h, l := c as int / 16, c as int % 16;
    LowHexDigit(h);
    LowHexDigit(l);
    assert 16 * h + l == c as int;
  }

  lemma {:induction false} HexStringMeaning(b: Bytes)
    ensures HexParse(HexString(b)) == Option<string>.Some(b)
    ensures forall c | c in HexString(b) :: Unreserved(c)
  {
    if b != "" {
      HexStringMeaning(b[1..]);
      LowHexByte(b[0]);
      var h := HexString(b);
      assert h[0] == LowHex(b[0] as int / 16) && h[1] == LowHex(b[0] as int % 16) && h[2..] == HexString(b[1..]);
      assert [b[0]] + b[1..] == b;
    }
  }

  lemma {:induction false} UnreservedIsFixed(s: Bytes)
    requires forall c | c in s :: Unreserved(c)
    ensures PercentEncode(s) == s
  {
    if s != "" {
      assert s[0] in s;
      UnreservedIsFixed(s[1..]);
      assert [s[0]] + s[1..] == s;
    }
  }

  lemma Positions(t: string, p: string, g: string)
    requires |t| == 32 && |p| == 16 && |g| == 2
    ensures var s := "00-" + t + "-" + p + "-" + g;
      |s| == 55 && s[..3] == "00-" && s[3..35] == t && s[35] == '-' && s[36..52] == p && s[52] == '-' && s[53..] == g
  {
  }

  lemma TraceparentIsUnreserved(sc: SpanContext)
    requires Sized(sc)
    ensures forall c | c in Traceparent(sc) :: Unreserved(c)
    ensures IsBytes(Traceparent(sc))
  {
    HexStringMeaning(sc.traceId);
    HexStringMeaning(sc.spanId);
    HexStringMeaning([sc.flags]);
    var tp := Traceparent(sc);
    forall c | c in tp ensures Unreserved(c) {
      if NonZero(sc.traceId) && NonZero(sc.spanId) {
        assert c in HexString(sc.traceId) || c in HexString(sc.spanId) || c in HexString([sc.flags]) || c in "00-";
      }
    }
    UnreservedIsByte(tp);
  }

  lemma UnreservedIsByte(s: string)
    requires forall c | c in s :: Unreserved(c)
    ensures IsBytes(s)
  {
    forall i | 0 <= i < |s| ensures s[i] as int < 256 {
      assert s[i] in s;
      assert Unreserved(s[i]);
    }
  }

  lemma {:induction false} HexIsLow(b: Bytes)
    ensures forall c | c in HexString(b) :: '0' <= c <= '9' || 'a' <= c <= 'f'
  {
    if b != "" { HexIsLow(b[1..]); }
  }

  /** There is none exactly for an invalid span context, one with an id of zeros only. */
  lemma TraceparentOmittedWhen(sc: SpanContext)
    requires Sized(sc)
    ensures Traceparent(sc) == "" <==>
      (forall i | 0 <= i < 16 :: sc.traceId[i] as int == 0) || (forall i | 0 <= i < 8 :: sc.spanId[i] as int == 0)
  {
  }

  /** A traceparent is written with lower-case digits only, section 3.2.2 of W3C Trace Context. */
  lemma TraceparentIsLow(sc: SpanContext)
    requires Sized(sc)
    ensures forall c | c in Traceparent(sc) :: '0' <= c <= '9' || 'a' <= c <= 'f' || c == '-'
  {
    HexIsLow(sc.traceId);
    HexIsLow(sc.spanId);
    HexIsLow([sc.flags]);
    forall c | c in Traceparent(sc) ensures '0' <= c <= '9' || 'a' <= c <= 'f' || c == '-' {
      assert c in HexString(sc.traceId) || c in HexString(sc.spanId) || c in HexString([sc.flags]) || c in "00-";
    }
  }

  /** A traceparent is 55 bytes, is read back field by field, and is not changed by the escaping. */
  lemma TraceparentRoundTrip(sc: SpanContext)
    requires Sized(sc) && NonZero(sc.traceId) && NonZero(sc.spanId)
    ensures var tp := Traceparent(sc);
      && |tp| == 55
      && ParseTraceparent(tp) == Some((sc.traceId, sc.spanId, [sc.flags]))
      && IsBytes(tp)
      && ReplacePlus(QueryEscape(tp)) == tp
  {
    HexStringMeaning(sc.traceId);
    HexStringMeaning(sc.spanId);
    HexStringMeaning([sc.flags]);
    Positions(HexString(sc.traceId), HexString(sc.spanId), HexString([sc.flags]));
    TraceparentIsUnreserved(sc);
    UnreservedIsFixed(Traceparent(sc));
    EscapingIsPercentEncoding(Traceparent(sc));
  }
}
