/** JSON text as Python's `json.dumps` (default separators ", " and ": ",
    `ensure_ascii=True`) writes it and as `json.loads` reads it back, for the
    values the broker and the worker exchange: null, booleans, integers,
    strings, arrays and objects. The round trip `Decode(Encode(v)) == Some(v)`
    is proved for every value. */
module Json {
  import opened Wrappers
  import opened Text

  datatype Json =
    | JNull
    | JBool(b: bool)
    | JNum(n: int)
    | JStr(s: string)
    | JArr(items: seq<Json>)
    | JObj(members: seq<Member>)

  /** One `"key": value` pair of an object, in the order the object lists them. */
  datatype Member = Member(key: string, value: Json)

  /** Python's `isinstance(value, (dict, list))`. */
  predicate IsNested(v: Json) { v.JArr? || v.JObj? }

  /** Python's `d.get(key)` on a decoded object: the last member with that key
      wins, as `json.loads` keeps the last duplicate. */
  function Get(ms: seq<Member>, key: string): (r: Option<Json>)
    ensures r.Some? <==> exists i :: 0 <= i < |ms| && ms[i].key == key
    ensures r.Some? ==> exists i :: 0 <= i < |ms| && ms[i].key == key && ms[i].value == r.value
  {
    if ms == [] then None
    else if ms[|ms| - 1].key == key then Some(ms[|ms| - 1].value)
    else Get(ms[..|ms| - 1], key)
  }

  /** Of repeated keys, `Get` sees the last: the member it returns has no later namesake. */
  lemma {:induction false} GetLast(ms: seq<Member>, key: string)
    ensures Get(ms, key).Some? ==>
      exists i :: 0 <= i < |ms| && ms[i].key == key && ms[i].value == Get(ms, key).value &&
                  (forall j :: i < j < |ms| ==> ms[j].key != key)
  {
    if ms != [] && ms[|ms| - 1].key != key {
      var init := ms[..|ms| - 1];
      GetLast(init, key);
      if Get(ms, key).Some? {
        var i :| 0 <= i < |init| && init[i].key == key && init[i].value == Get(init, key).value &&
                 (forall j :: i < j < |init| ==> init[j].key != key);
        assert forall j :: i < j < |ms| ==> ms[j].key != key by {
          forall j | i < j < |ms| ensures ms[j].key != key {
            if j < |init| { assert ms[j] == init[j]; }
          }
        }
      }
    }
  }

  // ---------------------------------------------------------------- encoding

  predicate IsWs(c: char) { c == ' ' || c == '\t' || c == '\n' || c == '\r' }

  function HexDigit(d: nat): (c: char)
    requires d < 16
  {
    if d < 10 then ('0' as int + d) as char else ('a' as int + d - 10) as char
  }

  /** Four lower-case hex digits, as Python's `'{0:04x}'.format(v)`. */
  function Hex4(v: nat): (h: string)
    requires v < 0x10000
    ensures |h| == 4
  {
    var q1 := v / 16;
    var q2 := q1 / 16;
    [HexDigit(q2 / 16), HexDigit(q2 % 16), HexDigit(q1 % 16), HexDigit(v % 16)]
  }

  /** Python's escape for one character outside the printable ASCII range
      that has no short escape: `\uXXXX`, or a surrogate pair above U+FFFF. */
  function UnicodeEscape(c: char): (e: string)
  {
    var n := c as int;
    if n < 0x10000 then "\\u" + Hex4(n)
    else
      var m := n - 0x10000;
      "\\u" + Hex4(0xD800 + m / 0x400) + "\\u" + Hex4(0xDC00 + m % 0x400)
  }

  function EscapeChar(c: char): (e: string)
    ensures 0 < |e|
  {
    if c == '"' then "\\\""
    else if c == '\\' then "\\\\"
    else if c == '\n' then "\\n"
    else if c == '\r' then "\\r"
    else if c == '\t' then "\\t"
    else if c == '\U{8}' then "\\b"
    else if c == '\U{C}' then "\\f"
    else if ' ' <= c <= '~' then [c]
    else UnicodeEscape(c)
  }

  function Escape(s: string): string
  {
    if s == [] then "" else EscapeChar(s[0]) + Escape(s[1..])
  }

  function Quote(s: string): string { "\"" + Escape(s) + "\"" }

  /** Python's `str(n)` for any integer. */
  function IntText(n: int): string
  {
    if n < 0 then "-" + Decimal(-n) else Decimal(n)
  }

  /** Python's `json.dumps(v)`. The first character tells the parser which
      kind of value follows. */
  function Encode(v: Json): (t: string)
    decreases v
    ensures 0 < |t| && StartsValue(t[0])
  {
    match v
    case JNull => "null"
    case JBool(b) => if b then "true" else "false"
    case JNum(n) => IntText(n)
    case JStr(s) => Quote(s)
    case JArr(items) => "[" + EncodeItems(items) + "]"
    case JObj(ms) => "{" + EncodeMembers(ms) + "}"
  }

  predicate StartsValue(c: char)
  {
    c == 'n' || c == 't' || c == 'f' || c == '"' || c == '[' || c == '{' || c == '-' || IsDigit(c)
  }

  function EncodeItems(items: seq<Json>): string
    decreases items
  {
    if items == [] then ""
    else if |items| == 1 then Encode(items[0])
    else Encode(items[0]) + ", " + EncodeItems(items[1..])
  }

  function EncodeMembers(ms: seq<Member>): string
    decreases ms
  {
    if ms == [] then ""
    else if |ms| == 1 then EncodeMember(ms[0])
    else EncodeMember(ms[0]) + ", " + EncodeMembers(ms[1..])
  }

  function EncodeMember(m: Member): string
    decreases m
  {
    Quote(m.key) + ": " + Encode(m.value)
  }

  // ---------------------------------------------------------------- decoding

  function SkipWs(s: string): (r: string)
    ensures |r| <= |s| && r == s[|s| - |r|..]
    ensures r == [] || !IsWs(r[0])
  {
    if s != [] && IsWs(s[0]) then SkipWs(s[1..]) else s
  }

  function HexValue(c: char): Option<nat>
  {
    if '0' <= c <= '9' then Some(c as int - '0' as int)
    else if 'a' <= c <= 'f' then Some(c as int - 'a' as int + 10)
    else if 'A' <= c <= 'F' then Some(c as int - 'A' as int + 10)
    else None
  }

  /** The four hex digits at the head of `s`, if there are four. */
  function Hex4Value(s: string): (r: Option<nat>)
    ensures r.Some? ==> 4 <= |s| && r.value < 0x10000
  {
    if |s| < 4 then None
    else
      match (HexValue(s[0]), HexValue(s[1]), HexValue(s[2]), HexValue(s[3]))
      case (Some(a), Some(b), Some(c), Some(d)) =>
        if a < 16 && b < 16 && c < 16 && d < 16 then Some(((a * 16 + b) * 16 + c) * 16 + d) else None
      case _ => None
  }

  /** The character a `\u` escape stands for, reading a surrogate pair as one
      character; `s` starts just after the `\u`. Unpaired surrogates cannot be
      held in a string here and are refused. */
  function UnicodeUnescape(s: string): (r: Option<(char, string)>)
    ensures r.Some? ==> |r.value.1| < |s|
  {
    match Hex4Value(s)
    case None => None
    case Some(v) =>
      if 0xD800 <= v < 0xDC00 then
        var t := s[4..];
        if |t| < 2 || t[0] != '\\' || t[1] != 'u' then None
        else
          match Hex4Value(t[2..])
          case None => None
          case Some(w) =>
            if 0xDC00 <= w < 0xE000 then Some(((0x10000 + (v - 0xD800) * 0x400 + (w - 0xDC00)) as char, t[6..]))
            else None
      else if 0xDC00 <= v < 0xE000 then None
      else Some((v as char, s[4..]))
  }

  /** One escape sequence; `s` starts just after the backslash. */
  function Unescape(s: string): (r: Option<(char, string)>)
    ensures r.Some? ==> |r.value.1| < |s|
  {
    if s == [] then None
    else if s[0] == '"' then Some(('"', s[1..]))
    else if s[0] == '\\' then Some(('\\', s[1..]))
    else if s[0] == '/' then Some(('/', s[1..]))
    else if s[0] == 'n' then Some(('\n', s[1..]))
    else if s[0] == 'r' then Some(('\r', s[1..]))
    else if s[0] == 't' then Some(('\t', s[1..]))
    else if s[0] == 'b' then Some(('\U{8}', s[1..]))
    else if s[0] == 'f' then Some(('\U{C}', s[1..]))
    else if s[0] == 'u' then UnicodeUnescape(s[1..])
    else None
  }

  /** The characters of a string literal up to its closing quote; `s` starts
      just after the opening quote. Raw control characters are refused, as
      `json.loads` does in its default strict mode. */
  function ParseChars(s: string): (r: Option<(string, string)>)
    decreases |s|
    ensures r.Some? ==> |r.value.1| < |s|
  {
    if s == [] then None
    else if s[0] == '"' then Some(([], s[1..]))
    else if s[0] == '\\' then
      match Unescape(s[1..])
      case None => None
      case Some((c, rest)) =>
        match ParseChars(rest)
        case None => None
        case Some((cs, after)) => Some(([c] + cs, after))
    else if s[0] < ' ' then None
    else
      match ParseChars(s[1..])
      case None => None
      case Some((cs, after)) => Some(([s[0]] + cs, after))
  }

  /** Length of the run of digits at the head of `s`. */
  function DigitSpan(s: string): (n: nat)
    ensures n <= |s| && AllDigits(s[..n])
    ensures n < |s| ==> !IsDigit(s[n])
  {
    if s == [] || !IsDigit(s[0]) then 0
    else
      var k := DigitSpan(s[1..]);
      assert s[..k + 1] == [s[0]] + s[1..][..k];
      k + 1
  }

  /** How many leading characters of `s` form the digits of a number: a lone leading
      `0`, or the whole run of digits. */
  function NumberSpan(s: string): (n: nat)
    ensures n <= |s| && AllDigits(s[..n])
  {
    if s != [] && s[0] == '0' then 1 else DigitSpan(s)
  }

  /** An integer: an optional minus sign, then `0` alone or a run of digits that does
      not start with `0`. After a leading `0` the number ends, so a digit following it
      is left unread and the caller refuses it. */
  function ParseNumber(s: string): (r: Option<(Json, string)>)
    ensures r.Some? ==> |r.value.1| < |s|
  {
    var negative := s != [] && s[0] == '-';
    var body := if negative then s[1..] else s;
    var k := NumberSpan(body);
    if k == 0 then None
    else
      var m: int := DigitsValue(body[..k]);
      Some((JNum(if negative then -m else m), body[k..]))
  }

  function Keyword(s: string, word: string, v: Json): (r: Option<(Json, string)>)
    requires 0 < |word|
    ensures r.Some? ==> |r.value.1| < |s|
  {
    if |word| <= |s| && s[..|word|] == word then Some((v, s[|word|..])) else None
  }

  /** One value after optional whitespace, and the text that follows it. */
  function ParseValue(s: string): (r: Option<(Json, string)>)
    decreases |s|, 0
    ensures r.Some? ==> |r.value.1| < |s|
  {
    var t := SkipWs(s);
    if t == [] then None
    else if t[0] == 'n' then Keyword(t, "null", JNull)
    else if t[0] == 't' then Keyword(t, "true", JBool(true))
    else if t[0] == 'f' then Keyword(t, "false", JBool(false))
    else if t[0] == '"' then
      match ParseChars(t[1..])
      case None => None
      case Some((str, rest)) => Some((JStr(str), rest))
    else if t[0] == '[' then ParseArray(t[1..])
    else if t[0] == '{' then ParseObject(t[1..])
    else ParseNumber(t)
  }

  /** An array after its opening bracket. */
  function ParseArray(s: string): (r: Option<(Json, string)>)
    decreases |s|, 2
    ensures r.Some? ==> |r.value.1| < |s|
  {
    var u := SkipWs(s);
    if u != [] && u[0] == ']' then Some((JArr([]), u[1..]))
    else
      match ParseElements(s)
      case None => None
      case Some((items, rest)) => Some((JArr(items), rest))
  }

  /** One or more comma-separated values and the closing bracket. */
  function ParseElements(s: string): (r: Option<(seq<Json>, string)>)
    decreases |s|, 1
    ensures r.Some? ==> |r.value.1| < |s|
  {
    match ParseValue(s)
    case None => None
    case Some((v, rest)) => MoreElements(v, rest)
  }

  /** What follows the value `v` inside an array: a comma and more values, or the closing bracket. */
  function MoreElements(v: Json, rest: string): (r: Option<(seq<Json>, string)>)
    decreases |rest|, 0
    ensures r.Some? ==> |r.value.1| < |rest|
  {
    var u := SkipWs(rest);
    if u != [] && u[0] == ',' then
      match ParseElements(u[1..])
      case None => None
      case Some((vs, after)) => Some(([v] + vs, after))
    else if u != [] && u[0] == ']' then Some(([v], u[1..]))
    else None
  }

  /** An object after its opening brace. */
  function ParseObject(s: string): (r: Option<(Json, string)>)
    decreases |s|, 2
    ensures r.Some? ==> |r.value.1| < |s|
  {
    var u := SkipWs(s);
    if u != [] && u[0] == '}' then Some((JObj([]), u[1..]))
    else
      match ParseMembers(s)
      case None => None
      case Some((ms, rest)) => Some((JObj(ms), rest))
  }

  /** One `"key": value` pair after optional whitespace. */
  function ParseMember(s: string): (r: Option<(Member, string)>)
    decreases |s|, 0
    ensures r.Some? ==> |r.value.1| < |s|
  {
    var u := SkipWs(s);
    if u == [] || u[0] != '"' then None
    else
      match ParseChars(u[1..])
      case None => None
      case Some((key, r1)) =>
        var u2 := SkipWs(r1);
        if u2 == [] || u2[0] != ':' then None
        else
          match ParseValue(u2[1..])
          case None => None
          case Some((v, r2)) => Some((Member(key, v), r2))
  }

  /** One or more comma-separated `"key": value` pairs and the closing brace. */
  function ParseMembers(s: string): (r: Option<(seq<Member>, string)>)
    decreases |s|, 1
    ensures r.Some? ==> |r.value.1| < |s|
  {
    match ParseMember(s)
    case None => None
    case Some((m, rest)) => MoreMembers(m, rest)
  }

  /** What follows the pair `m` inside an object: a comma and more pairs, or the closing brace. */
  function MoreMembers(m: Member, rest: string): (r: Option<(seq<Member>, string)>)
    decreases |rest|, 0
    ensures r.Some? ==> |r.value.1| < |rest|
  {
    var u := SkipWs(rest);
    if u != [] && u[0] == ',' then
      match ParseMembers(u[1..])
      case None => None
      case Some((ms, after)) => Some(([m] + ms, after))
    else if u != [] && u[0] == '}' then Some(([m], u[1..]))
    else None
  }

  /** Python's `json.loads(s)`: one value, with nothing but whitespace around it. */
  function Decode(s: string): Option<Json>
  {
    if s != [] && IsWs(s[0]) then Decode(s[1..])
    else
      match ParseValue(s)
      case None => None
      case Some((v, rest)) => if SkipWs(rest) == [] then Some(v) else None
  }

  // ---------------------------------------------------------------- round trip

  /** `rest` cannot extend a number written just before it. */
  predicate Delimits(rest: string) { rest == [] || !IsDigit(rest[0]) }

  lemma HexDigitValue(d: nat)
    requires d < 16
    ensures HexValue(HexDigit(d)) == Some(d)
  {
  }

  lemma Hex4RoundTrip(v: nat, rest: string)
    requires v < 0x10000
    ensures Hex4Value(Hex4(v) + rest) == Some(v)
  {
    var q1 := v / 16;
    var q2 := q1 / 16;
    var s := Hex4(v) + rest;
    HexDigitValue(q2 / 16);
    HexDigitValue(q2 % 16);
    HexDigitValue(q1 % 16);
    HexDigitValue(v % 16);
    assert s[0] == HexDigit(q2 / 16) && s[1] == HexDigit(q2 % 16);
    assert s[2] == HexDigit(q1 % 16) && s[3] == HexDigit(v % 16);
    assert (q2 / 16) * 16 + q2 % 16 == q2;
    assert q2 * 16 + q1 % 16 == q1;
    assert q1 * 16 + v % 16 == v;
  }

  lemma UnicodeUnescapeBmp(n: nat, rest: string)
    requires n < 0x10000 && (n < 0xD800 || 0xE000 <= n)
    ensures UnicodeUnescape(Hex4(n) + rest) == Some((n as char, rest))
  {
    Hex4RoundTrip(n, rest);
    assert (Hex4(n) + rest)[4..] == rest;
  }

  lemma UnicodeUnescapePair(hi: nat, lo: nat, rest: string)
    requires 0xD800 <= hi < 0xDC00 && 0xDC00 <= lo < 0xE000
    ensures UnicodeUnescape(Hex4(hi) + ("\\u" + Hex4(lo) + rest))
         == Some(((0x10000 + (hi - 0xD800) * 0x400 + (lo - 0xDC00)) as char, rest))
  {
    var tail := "\\u" + Hex4(lo) + rest;
    Hex4RoundTrip(hi, tail);
    assert (Hex4(hi) + tail)[4..] == tail;
    assert tail[2..] == Hex4(lo) + rest;
    Hex4RoundTrip(lo, rest);
    assert tail[6..] == rest;
  }

  /** A `\u` escape, read after its backslash, yields the escaped character. */
  lemma UnicodeEscapeRoundTrip(c: char, rest: string)
    ensures UnicodeEscape(c)[0] == '\\'
    ensures Unescape(UnicodeEscape(c)[1..] + rest) == Some((c, rest))
  {
    var n := c as int;
    if n < 0x10000 {
      UnicodeEscapeBmp(c, rest);
    } else {
      UnicodeEscapeAstral(c, rest);
    }
  }

  lemma UnicodeEscapeBmp(c: char, rest: string)
    requires c as int < 0x10000
    ensures Unescape(UnicodeEscape(c)[1..] + rest) == Some((c, rest))
  {
    var n := c as int;
    var x := Hex4(n) + rest;
    assert UnicodeEscape(c) == "\\u" + Hex4(n);
    assert UnicodeEscape(c)[1..] + rest == "u" + x;
    UnescapeU(x);
    UnicodeUnescapeBmp(n, rest);
  }

  lemma UnicodeEscapeAstral(c: char, rest: string)
    requires 0x10000 <= c as int
    ensures Unescape(UnicodeEscape(c)[1..] + rest) == Some((c, rest))
  {
    var m := c as int - 0x10000;
    var hi, lo := 0xD800 + m / 0x400, 0xDC00 + m % 0x400;
    assert UnicodeEscape(c) == "\\u" + Hex4(hi) + "\\u" + Hex4(lo);
    AfterBackslash(Hex4(hi), Hex4(lo), rest);
    UnescapeU(Hex4(hi) + ("\\u" + Hex4(lo) + rest));
    Surrogates(c as int);
    UnicodeUnescapePair(hi, lo, rest);
  }

  /** The surrogate pair of a code point above U+FFFF recombines to it. */
  lemma Surrogates(n: int)
    requires 0x10000 <= n < 0x110000
    ensures var m := n - 0x10000;
      var hi, lo := 0xD800 + m / 0x400, 0xDC00 + m % 0x400;
      0xD800 <= hi < 0xDC00 && 0xDC00 <= lo < 0xE000
      && 0x10000 + (hi - 0xD800) * 0x400 + (lo - 0xDC00) == n
  {
  }

  lemma AfterBackslash(a: string, b: string, rest: string)
    ensures ("\\u" + a + "\\u" + b)[1..] + rest == "u" + (a + ("\\u" + b + rest))
  {
  }

  lemma UnescapeU(x: string)
    ensures Unescape("u" + x) == UnicodeUnescape(x)
  {
    assert ("u" + x)[1..] == x;
  }

  function Prepend(c: char, r: Option<(string, string)>): Option<(string, string)>
  {
    match r
    case None => None
    case Some((cs, after)) => Some(([c] + cs, after))
  }

  predicate HasShortEscape(c: char)
  {
    c == '"' || c == '\\' || c == '\n' || c == '\r' || c == '\t' || c == '\U{8}' || c == '\U{C}'
  }

  lemma EscapeCharRoundTrip(c: char, x: string)
    ensures ParseChars(EscapeChar(c) + x) == Prepend(c, ParseChars(x))
  {
    var e := EscapeChar(c);
    HeadSplit(e, x);
    if HasShortEscape(c) {
      ShortEscapeRoundTrip(c, x);
    } else if ' ' <= c <= '~' {
      assert e[1..] == [];
    } else {
      UnicodeEscapeRoundTrip(c, x);
    }
  }

  /** A two-character escape, read after its backslash, yields the character. */
  lemma ShortEscapeRoundTrip(c: char, x: string)
    requires HasShortEscape(c)
    ensures |EscapeChar(c)| == 2 && EscapeChar(c)[0] == '\\'
    ensures Unescape(EscapeChar(c)[1..] + x) == Some((c, x))
  {
    var e := EscapeChar(c);
    assert e[1..] == [e[1]];
    HeadSplit([e[1]], x);
  }

  /** The head and the tail of a non-empty string followed by more text. */
  lemma HeadSplit<T>(u: seq<T>, x: seq<T>)
    requires u != []
    ensures (u + x)[0] == u[0] && (u + x)[1..] == u[1..] + x
  {
  }

  lemma {:induction false} EscapeRoundTrip(s: string, rest: string)
    ensures ParseChars(Escape(s) + "\"" + rest) == Some((s, rest))
  {
    if s == [] {
      assert Escape(s) + "\"" + rest == "\"" + rest;
      assert ("\"" + rest)[1..] == rest;
    } else {
      var x := Escape(s[1..]) + "\"" + rest;
      assert Escape(s) + "\"" + rest == EscapeChar(s[0]) + x;
      EscapeCharRoundTrip(s[0], x);
      EscapeRoundTrip(s[1..], rest);
      assert [s[0]] + s[1..] == s;
    }
  }

  lemma {:induction false} DigitSpanOver(ds: string, rest: string)
    requires AllDigits(ds) && Delimits(rest)
    ensures DigitSpan(ds + rest) == |ds|
  {
    if ds != [] {
      assert (ds + rest)[1..] == ds[1..] + rest;
      DigitSpanOver(ds[1..], rest);
    } else {
      assert ds + rest == rest;
    }
  }

  /** The digits of `m` followed by a delimiter read back as `m`. */
  lemma NumberBody(m: nat, rest: string)
    requires Delimits(rest)
    ensures var body := Decimal(m) + rest;
      var k := |Decimal(m)|;
      0 < k && NumberSpan(body) == k && DigitsValue(body[..k]) == m && body[k..] == rest
  {
    DigitSpanOver(Decimal(m), rest);
    DecimalRoundTrip(m);
    DecimalLead(m);
    SplitAt(Decimal(m), rest);
  }

  lemma SplitAt<T>(a: seq<T>, b: seq<T>)
    ensures (a + b)[..|a|] == a && (a + b)[|a|..] == b
  {
  }

  lemma SignedText(ds: string, rest: string)
    ensures ("-" + ds + rest)[0] == '-' && ("-" + ds + rest)[1..] == ds + rest
  {
  }

  lemma NumberRoundTrip(n: int, rest: string)
    requires Delimits(rest)
    ensures ParseNumber(IntText(n) + rest) == Some((JNum(n), rest))
  {
    if n < 0 {
      SignedText(Decimal(-n), rest);
      NumberBody(-n, rest);
    } else {
      NumberBody(n, rest);
    }
  }

  /** A leading `0` is a whole number: the text after it is left unread. */
  lemma {:induction false} ZeroNumber(s: string)
    requires s != [] && s[0] == '0'
    ensures ParseNumber(s) == Some((JNum(0), s[1..]))
  {
    assert s[..1] == "0";
    assert DigitsValue("0") == DigitsValue([]) * 10 + DigitValue('0');
  }

  lemma {:induction false} ZeroStops(s: string)
    requires s != [] && s[0] == '0'
    ensures ParseValue(s) == Some((JNum(0), s[1..]))
  {
    ValueIsNumber(s);
    ZeroNumber(s);
  }

  /** A number written with a leading zero, as `01`, is refused. */
  lemma {:induction false} LeadingZeroRefused(s: string)
    requires 2 <= |s| && s[0] == '0' && IsDigit(s[1])
    ensures Decode(s) == None
  {
    ZeroStops(s);
    SkipWsNone(s[1..]);
  }

  /** A digit cannot follow an array element: only a comma or the closing bracket can. */
  lemma {:induction false} DigitEndsElements(v: Json, rest: string)
    requires rest != [] && IsDigit(rest[0])
    ensures MoreElements(v, rest) == None
  {
    SkipWsNone(rest);
  }

  /** An array whose first element is written with a leading zero is refused. */
  lemma {:induction false} ZeroElement(u: string)
    requires 2 <= |u| && u[0] == '0' && IsDigit(u[1])
    ensures ParseArray(u) == None
  {
    ZeroStops(u);
    DigitEndsElements(JNum(0), u[1..]);
    assert ParseElements(u) == None;
    SkipWsNone(u);
  }

  /** The same number as an array element, as `[01]`, is refused too: the digit after
      the `0` is neither a comma nor a closing bracket. */
  lemma {:induction false} LeadingZeroElement(s: string)
    requires 3 <= |s| && s[0] == '[' && s[1] == '0' && IsDigit(s[2])
    ensures Decode(s) == None
  {
    ZeroElement(s[1..]);
    SkipWsNone(s);
    assert ParseValue(s) == None;
  }

  // Each step lemma below unfolds one parser function on one input shape.

  /** Whitespace skipping stops at a character that is not whitespace. */
  lemma {:induction false} SkipWsStops(c: char, x: string)
    requires !IsWs(c)
    ensures SkipWs([c] + x) == [c] + x && ([c] + x)[1..] == x
  {
  }

  /** The separators the encoder writes, as a character and a space. */
  lemma {:induction false} Separators(x: string)
    ensures ", " + x == [','] + (" " + x) && ": " + x == [':'] + (" " + x)
  {
  }

  lemma {:induction false} SkipWsNone(t: string)
    requires t != [] && !IsWs(t[0])
    ensures SkipWs(t) == t
  {
  }

  lemma {:induction false} SkipWsSpace(x: string)
    ensures SkipWs(" " + x) == SkipWs(x)
  {
    assert (" " + x)[1..] == x;
  }

  lemma {:induction false} ValueSpace(x: string)
    ensures ParseValue(" " + x) == ParseValue(x)
  {
    SkipWsSpace(x);
  }

  lemma {:induction false} ElementsSpace(x: string)
    ensures ParseElements(" " + x) == ParseElements(x)
  {
    ValueSpace(x);
  }

  lemma {:induction false} MemberSpace(x: string)
    ensures ParseMember(" " + x) == ParseMember(x)
  {
    SkipWsSpace(x);
  }

  lemma {:induction false} MembersSpace(x: string)
    ensures ParseMembers(" " + x) == ParseMembers(x)
  {
    MemberSpace(x);
  }

  lemma {:induction false} NullEncoded(rest: string)
    ensures ParseValue("null" + rest) == Some((JNull, rest))
  {
    var t := "null" + rest;
    SkipWsNone(t);
    assert t[..4] == "null" && t[4..] == rest;
  }

  lemma {:induction false} BoolEncoded(b: bool, rest: string)
    ensures ParseValue(Encode(JBool(b)) + rest) == Some((JBool(b), rest))
  {
    var t := Encode(JBool(b)) + rest;
    SkipWsNone(t);
    if b {
      assert t[..4] == "true" && t[4..] == rest;
    } else {
      assert t[..5] == "false" && t[5..] == rest;
    }
  }

  /** A value that starts with a minus sign or a digit is a number. */
  lemma {:induction false} ValueIsNumber(t: string)
    requires t != [] && (t[0] == '-' || IsDigit(t[0]))
    ensures ParseValue(t) == ParseNumber(t)
  {
    SkipWsNone(t);
  }

  lemma {:induction false} NumEncoded(n: int, rest: string)
    requires Delimits(rest)
    ensures ParseValue(IntText(n) + rest) == Some((JNum(n), rest))
  {
    var t := IntText(n) + rest;
    assert t[0] == '-' || IsDigit(t[0]);
    ValueIsNumber(t);
    NumberRoundTrip(n, rest);
  }

  /** A value that starts with a quote is a string. */
  lemma {:induction false} ValueIsString(t: string, s: string, rest: string)
    requires t != [] && t[0] == '"' && ParseChars(t[1..]) == Some((s, rest))
    ensures ParseValue(t) == Some((JStr(s), rest))
  {
    SkipWsNone(t);
  }

  lemma {:induction false} StrEncoded(s: string, rest: string)
    ensures ParseValue(Quote(s) + rest) == Some((JStr(s), rest))
  {
    var t := Quote(s) + rest;
    assert t[0] == '"' && t[1..] == Escape(s) + "\"" + rest;
    EscapeRoundTrip(s, rest);
    ValueIsString(t, s, rest);
  }

  lemma {:induction false} ValueOpensArray(x: string)
    ensures ParseValue("[" + x) == ParseArray(x)
  {
    SkipWsStops('[', x);
  }

  lemma {:induction false} ValueOpensObject(x: string)
    ensures ParseValue("{" + x) == ParseObject(x)
  {
    SkipWsStops('{', x);
  }

  lemma {:induction false} ArrayEmpty(rest: string)
    ensures ParseArray("]" + rest) == Some((JArr([]), rest))
  {
    SkipWsStops(']', rest);
  }

  lemma {:induction false} ArrayNonEmpty(x: string)
    requires x != [] && StartsValue(x[0])
    ensures ParseArray(x) ==
      match ParseElements(x)
      case None => None
      case Some((items, r)) => Some((JArr(items), r))
  {
    SkipWsNone(x);
  }

  lemma {:induction false} ObjectEmpty(rest: string)
    ensures ParseObject("}" + rest) == Some((JObj([]), rest))
  {
    SkipWsStops('}', rest);
  }

  lemma {:induction false} ObjectNonEmpty(x: string)
    requires x != [] && x[0] == '"'
    ensures ParseObject(x) ==
      match ParseMembers(x)
      case None => None
      case Some((ms, r)) => Some((JObj(ms), r))
  {
    SkipWsNone(x);
  }

  lemma {:induction false} ElementsNext(v: Json, x: string)
    ensures MoreElements(v, ", " + x) ==
      match ParseElements(x)
      case None => None
      case Some((vs, after)) => Some(([v] + vs, after))
  {
    Separators(x);
    SkipWsStops(',', " " + x);
    ElementsSpace(x);
  }

  lemma {:induction false} ElementsLast(v: Json, x: string)
    ensures MoreElements(v, "]" + x) == Some(([v], x))
  {
    SkipWsStops(']', x);
  }

  lemma {:induction false} MembersNext(m: Member, x: string)
    ensures MoreMembers(m, ", " + x) ==
      match ParseMembers(x)
      case None => None
      case Some((ms, after)) => Some(([m] + ms, after))
  {
    Separators(x);
    SkipWsStops(',', " " + x);
    MembersSpace(x);
  }

  lemma {:induction false} MembersLast(m: Member, x: string)
    ensures MoreMembers(m, "}" + x) == Some(([m], x))
  {
    SkipWsStops('}', x);
  }

  /** A key and its colon, followed by whatever the value parser makes of the rest. */
  lemma {:induction false} MemberHead(key: string, x: string)
    ensures ParseMember(Quote(key) + ": " + x) ==
      match ParseValue(x)
      case None => None
      case Some((v, r)) => Some((Member(key, v), r))
  {
    var s := Quote(key) + ": " + x;
    assert s == "\"" + (Escape(key) + "\"" + (": " + x));
    SkipWsStops('"', Escape(key) + "\"" + (": " + x));
    EscapeRoundTrip(key, ": " + x);
    Separators(x);
    SkipWsStops(':', " " + x);
    ValueSpace(x);
  }

  /** Parsing the text of a value gives the value back, leaving the rest untouched. */
  lemma {:induction false} ParseEncoded(v: Json, rest: string)
    requires Delimits(rest)
    ensures ParseValue(Encode(v) + rest) == Some((v, rest))
    decreases v, 3
  {
    match v
    case JNull => NullEncoded(rest);
    case JBool(b) => BoolEncoded(b, rest);
    case JNum(n) => NumEncoded(n, rest);
    case JStr(s) => StrEncoded(s, rest);
    case JArr(items) => ArrayEncoded(items, rest);
    case JObj(ms) => ObjectEncoded(ms, rest);
  }

  /** A value followed by a comma and the rest of an array. */
  lemma {:induction false} ElementsCons(s: string, v: Json, more: string, vs: seq<Json>, rest: string)
    requires ParseValue(s) == Some((v, ", " + more))
    requires ParseElements(more) == Some((vs, rest))
    ensures ParseElements(s) == Some(([v] + vs, rest))
  {
    ElementsNext(v, more);
  }

  /** A value followed by the closing bracket. */
  lemma {:induction false} ElementsOne(s: string, v: Json, rest: string)
    requires ParseValue(s) == Some((v, "]" + rest))
    ensures ParseElements(s) == Some(([v], rest))
  {
    ElementsLast(v, rest);
  }

  /** A pair followed by a comma and the rest of an object. */
  lemma {:induction false} MembersCons(s: string, m: Member, more: string, ms: seq<Member>, rest: string)
    requires ParseMember(s) == Some((m, ", " + more))
    requires ParseMembers(more) == Some((ms, rest))
    ensures ParseMembers(s) == Some(([m] + ms, rest))
  {
    MembersNext(m, more);
  }

  /** A pair followed by the closing brace. */
  lemma {:induction false} MembersOne(s: string, m: Member, rest: string)
    requires ParseMember(s) == Some((m, "}" + rest))
    ensures ParseMembers(s) == Some(([m], rest))
  {
    MembersLast(m, rest);
  }

  // How the encoder's text for a list splits at its first item.

  lemma {:induction false} ArrayText(items: seq<Json>, rest: string)
    ensures Encode(JArr(items)) + rest == "[" + (EncodeItems(items) + "]" + rest)
    ensures items == [] ==> EncodeItems(items) + "]" + rest == "]" + rest
    ensures items != [] ==> EncodeItems(items)[0] == Encode(items[0])[0]
  {
  }

  lemma {:induction false} ObjectText(ms: seq<Member>, rest: string)
    ensures Encode(JObj(ms)) + rest == "{" + (EncodeMembers(ms) + "}" + rest)
    ensures ms == [] ==> EncodeMembers(ms) + "}" + rest == "}" + rest
    ensures ms != [] ==> EncodeMembers(ms) != [] && EncodeMembers(ms)[0] == '"'
  {
  }

  lemma {:induction false} ItemText(items: seq<Json>, rest: string)
    requires |items| == 1
    ensures EncodeItems(items) + "]" + rest == Encode(items[0]) + ("]" + rest)
  {
  }

  lemma {:induction false} ItemsText(items: seq<Json>, rest: string)
    requires |items| > 1
    ensures EncodeItems(items) + "]" + rest == Encode(items[0]) + (", " + (EncodeItems(items[1..]) + "]" + rest))
  {
  }

  lemma {:induction false} MemberText(ms: seq<Member>, rest: string)
    requires |ms| == 1
    ensures EncodeMembers(ms) + "}" + rest == EncodeMember(ms[0]) + ("}" + rest)
  {
  }

  lemma {:induction false} MembersText(ms: seq<Member>, rest: string)
    requires |ms| > 1
    ensures EncodeMembers(ms) + "}" + rest == EncodeMember(ms[0]) + (", " + (EncodeMembers(ms[1..]) + "}" + rest))
  {
  }

  lemma {:induction false} PunctuationDelimits(x: string)
    ensures Delimits("}" + x) && Delimits("]" + x) && Delimits(", " + x)
  {
  }

  lemma {:induction false} ArrayEncoded(items: seq<Json>, rest: string)
    ensures ParseValue(Encode(JArr(items)) + rest) == Some((JArr(items), rest))
    decreases items, 2
  {
    var x := EncodeItems(items) + "]" + rest;
    ArrayText(items, rest);
    ValueOpensArray(x);
    if items == [] {
      ArrayEmpty(rest);
    } else {
      ArrayNonEmpty(x);
      ElementsRoundTrip(items, rest);
    }
  }

  lemma {:induction false} ObjectEncoded(ms: seq<Member>, rest: string)
    ensures ParseValue(Encode(JObj(ms)) + rest) == Some((JObj(ms), rest))
    decreases ms, 2
  {
    var x := EncodeMembers(ms) + "}" + rest;
    ObjectText(ms, rest);
    ValueOpensObject(x);
    if ms == [] {
      ObjectEmpty(rest);
    } else {
      ObjectNonEmpty(x);
      MembersRoundTrip(ms, rest);
    }
  }

  lemma {:induction false} ElementsRoundTrip(items: seq<Json>, rest: string)
    requires items != []
    ensures ParseElements(EncodeItems(items) + "]" + rest) == Some((items, rest))
    decreases items, 1
  {
    if |items| == 1 {
      ElementRoundTrip(items, rest);
    } else {
      ElementsConsRoundTrip(items, rest);
    }
  }

  lemma {:induction false} ElementRoundTrip(items: seq<Json>, rest: string)
    requires |items| == 1
    ensures ParseElements(EncodeItems(items) + "]" + rest) == Some((items, rest))
    decreases items, 0
  {
    ItemText(items, rest);
    PunctuationDelimits(rest);
    ParseEncoded(items[0], "]" + rest);
    ElementsOne(Encode(items[0]) + ("]" + rest), items[0], rest);
    assert [items[0]] == items;
  }

  lemma {:induction false} ElementsConsRoundTrip(items: seq<Json>, rest: string)
    requires |items| > 1
    ensures ParseElements(EncodeItems(items) + "]" + rest) == Some((items, rest))
    decreases items, 0
  {
    var more := EncodeItems(items[1..]) + "]" + rest;
    ItemsText(items, rest);
    PunctuationDelimits(more);
    ParseEncoded(items[0], ", " + more);
    ElementsRoundTrip(items[1..], rest);
    ElementsCons(Encode(items[0]) + (", " + more), items[0], more, items[1..], rest);
    HeadTail(items);
  }

  lemma {:induction false} MemberRoundTrip(m: Member, tail: string)
    requires Delimits(tail)
    ensures ParseMember(EncodeMember(m) + tail) == Some((m, tail))
    decreases m
  {
    assert EncodeMember(m) + tail == Quote(m.key) + ": " + (Encode(m.value) + tail);
    MemberHead(m.key, Encode(m.value) + tail);
    ParseEncoded(m.value, tail);
  }

  lemma {:induction false} MembersRoundTrip(ms: seq<Member>, rest: string)
    requires ms != []
    ensures ParseMembers(EncodeMembers(ms) + "}" + rest) == Some((ms, rest))
    decreases ms, 1
  {
    if |ms| == 1 {
      OneMemberRoundTrip(ms, rest);
    } else {
      MembersConsRoundTrip(ms, rest);
    }
  }

  lemma {:induction false} OneMemberRoundTrip(ms: seq<Member>, rest: string)
    requires |ms| == 1
    ensures ParseMembers(EncodeMembers(ms) + "}" + rest) == Some((ms, rest))
    decreases ms, 0
  {
    MemberText(ms, rest);
    PunctuationDelimits(rest);
    MemberRoundTrip(ms[0], "}" + rest);
    MembersOne(EncodeMember(ms[0]) + ("}" + rest), ms[0], rest);
    assert [ms[0]] == ms;
  }

  lemma {:induction false} MembersConsRoundTrip(ms: seq<Member>, rest: string)
    requires |ms| > 1
    ensures ParseMembers(EncodeMembers(ms) + "}" + rest) == Some((ms, rest))
    decreases ms, 0
  {
    var more := EncodeMembers(ms[1..]) + "}" + rest;
    MembersText(ms, rest);
    PunctuationDelimits(more);
    MemberRoundTrip(ms[0], ", " + more);
    MembersRoundTrip(ms[1..], rest);
    MembersCons(EncodeMember(ms[0]) + (", " + more), ms[0], more, ms[1..], rest);
    HeadTail(ms);
  }

  /** A non-empty list is its head followed by its tail. */
  lemma HeadTail<T>(xs: seq<T>)
    requires xs != []
    ensures [xs[0]] + xs[1..] == xs
  {
  }

  /** An encoded value read on its own leaves nothing behind. */
  lemma {:induction false} EncodedAlone(v: Json)
    ensures ParseValue(Encode(v)) == Some((v, []))
  {
    ParseEncoded(v, []);
    assert Encode(v) + [] == Encode(v);
  }

  /** Text that starts with a value and holds nothing after it decodes to that value. */
  lemma {:induction false} DecodeAlone(s: string, v: Json)
    requires s != [] && !IsWs(s[0]) && ParseValue(s) == Some((v, []))
    ensures Decode(s) == Some(v)
  {
  }

  /** `json.loads(json.dumps(v)) == v` for every value. */
  lemma {:induction false} DecodeEncode(v: Json)
    ensures Decode(Encode(v)) == Some(v)
  {
    EncodedAlone(v);
    DecodeAlone(Encode(v), v);
  }
}
