/** `JSON.stringify` on preference values, and a reader that inverts it. The reader exists
    to state what the text determines: two values with the same JSON text are equal. */
module Json {
  import opened Optional
  import opened JsString
  import opened Types

  // ---------------------------------------------------------------------------
  // Writing
  // ---------------------------------------------------------------------------

  function HexDigit(d: nat): (c: char)
    requires d < 16
  {
    if d < 10 then DigitChar(d) else ('a' as int + (d - 10)) as char
  }

  /** How `JSON.stringify` writes one character inside a string literal: the two mandatory
      escapes, the five short control escapes, `\u00xx` in lower-case hex for the other
      control characters, and every other character as itself. */
  function EscapeChar(c: char): string {
    if c == '"' then "\\\""
    else if c == '\\' then "\\\\"
    else if c == '\U{08}' then "\\b"
    else if c == '\t' then "\\t"
    else if c == '\n' then "\\n"
    else if c == '\U{0C}' then "\\f"
    else if c == '\r' then "\\r"
    else if c < ' ' then "\\u00" + [HexDigit(c as int / 16), HexDigit(c as int % 16)]
    else [c]
  }

  /** The escaped characters of `s` followed by the text `k`. */
  function EscapeThen(s: string, k: string): string
    decreases |s|
  {
    if |s| == 0 then k else EscapeChar(s[0]) + EscapeThen(s[1..], k)
  }

  /** `JSON.stringify` on a string, followed by the text `k`. */
  function QuoteThen(s: string, k: string): string {
    "\"" + EscapeThen(s, "\"" + k)
  }

  /** `JSON.stringify(value)` without indentation; object members in enumeration order. */
  function Stringify(v: Value): string {
    Write(v, "")
  }

  /** The JSON text of `v` followed by the text `k`. */
  function Write(v: Value, k: string): string
    decreases v, 1
  {
    match v
    case Bool(b) => (if b then "true" else "false") + k
    case Num(n) => IntToString(n) + k
    case Str(s) => QuoteThen(s, k)
    case StrArray(items) => "[" + (if |items| == 0 then "]" + k else WriteItems(items, "]" + k))
    case Dict(fields) => "{" + (if |fields| == 0 then "}" + k else WriteMembers(fields, v, "}" + k))
  }

  /** String literals separated by commas, followed by `k`. */
  function WriteItems(items: seq<string>, k: string): string
    requires |items| > 0
    decreases |items|
  {
    QuoteThen(items[0], if |items| == 1 then k else "," + WriteItems(items[1..], k))
  }

  /** Object members `"key":value` separated by commas, followed by `k`. */
  function WriteMembers(fs: seq<(string, Value)>, ghost parent: Value, k: string): string
    requires |fs| > 0
    requires forall i :: 0 <= i < |fs| ==> fs[i].1 < parent
    decreases parent, 0, |fs|
  {
    var after := if |fs| == 1 then k else "," + WriteMembers(fs[1..], parent, k);
    QuoteThen(fs[0].0, ":" + Write(fs[0].1, after))
  }

  // ---------------------------------------------------------------------------
  // Reading
  // ---------------------------------------------------------------------------

  function HexValue(c: char): Option<nat> {
    if '0' <= c <= '9' then Some(c as int - '0' as int)
    else if 'a' <= c <= 'f' then Some(c as int - 'a' as int + 10)
    else None
  }

  /** The character an escape sequence at the head of `s` stands for, and its length. */
  function Unescape(s: string): (r: Option<(char, nat)>)
    requires |s| >= 1 && s[0] == '\\'
    ensures r.Some? ==> 2 <= r.value.1 <= |s|
  {
    if |s| < 2 then None
    else if s[1] == '"' then Some(('"', 2))
    else if s[1] == '\\' then Some(('\\', 2))
    else if s[1] == 'b' then Some(('\U{08}', 2))
    else if s[1] == 't' then Some(('\t', 2))
    else if s[1] == 'n' then Some(('\n', 2))
    else if s[1] == 'f' then Some(('\U{0C}', 2))
    else if s[1] == 'r' then Some(('\r', 2))
    else if s[1] == 'u' && |s| >= 6 && s[2] == '0' && s[3] == '0'
         && HexValue(s[4]).Some? && HexValue(s[5]).Some? then
      Some(((16 * HexValue(s[4]).value + HexValue(s[5]).value) as char, 6))
    else None
  }

  /** The body of a string literal up to its closing quote, and what follows the quote. */
  function ParseStringBody(s: string): (r: Option<(string, string)>)
    ensures r.Some? ==> |r.value.1| < |s|
    decreases |s|
  {
    if |s| == 0 then None
    else if s[0] == '"' then Some(("", s[1..]))
    else if s[0] == '\\' then
      match Unescape(s)
      case None => None
      case Some((c, n)) => Prepend(c, ParseStringBody(s[n..]))
    else Prepend(s[0], ParseStringBody(s[1..]))
  }

  function Prepend(c: char, o: Option<(string, string)>): (r: Option<(string, string)>)
    ensures r.Some? <==> o.Some?
    ensures r.Some? ==> r.value.1 == o.value.1
  {
    match o
    case None => None
    case Some((t, rest)) => Some(([c] + t, rest))
  }

  /** The length of the run of decimal digits at the head of `s`. */
  function DigitRun(s: string): (k: nat)
    ensures k <= |s| && AllDigits(s[..k])
    ensures k < |s| ==> !IsDigit(s[k])
    decreases |s|
  {
    if |s| == 0 || !IsDigit(s[0]) then 0
    else
      var k := 1 + DigitRun(s[1..]);
      assert s[..k] == [s[0]] + s[1..][..k - 1];
      k
  }

  /** An optional minus sign, then a run of digits. */
  function ParseNumber(s: string): (r: Option<(int, string)>)
    ensures r.Some? ==> |r.value.1| < |s|
  {
    if |s| > 0 && s[0] == '-' then
      match ParseDigits(s[1..])
      case None => None
      case Some((n, rest)) => Some((-n, rest))
    else ParseDigits(s)
  }

  /** A non-empty run of digits at the head of `s`, as a number, and what follows it. */
  function ParseDigits(s: string): (r: Option<(int, string)>)
    ensures r.Some? ==> |r.value.1| < |s|
  {
    var k := DigitRun(s);
    if k == 0 then None else Some((DigitsValue(s[..k]) as int, s[k..]))
  }

  /** One JSON value at the head of `s`, and what follows it. */
  function ParseValue(s: string): (r: Option<(Value, string)>)
    ensures r.Some? ==> |r.value.1| < |s|
    decreases |s|, 2
  {
    if |s| == 0 then None
    else if s[0] == 't' then
      if StartsWith(s, "true") then Some((Bool(true), s[4..])) else None
    else if s[0] == 'f' then
      if StartsWith(s, "false") then Some((Bool(false), s[5..])) else None
    else if s[0] == '"' then
      match ParseStringBody(s[1..])
      case None => None
      case Some((t, rest)) => Some((Str(t), rest))
    else if s[0] == '[' then ParseArray(s)
    else if s[0] == '{' then ParseObject(s)
    else
      match ParseNumber(s)
      case None => None
      case Some((n, rest)) => Some((Num(n), rest))
  }

  function ParseArray(s: string): (r: Option<(Value, string)>)
    requires |s| > 0
    ensures r.Some? ==> |r.value.1| < |s|
    decreases |s|, 1
  {
    if |s| > 1 && s[1] == ']' then Some((StrArray([]), s[2..]))
    else
      match ParseItems(s[1..])
      case None => None
      case Some((ts, rest)) => Some((StrArray(ts), rest))
  }

  function ParseObject(s: string): (r: Option<(Value, string)>)
    requires |s| > 0
    ensures r.Some? ==> |r.value.1| < |s|
    decreases |s|, 1
  {
    if |s| > 1 && s[1] == '}' then Some((Dict([]), s[2..]))
    else
      match ParseMembers(s[1..])
      case None => None
      case Some((fs, rest)) => Some((Dict(fs), rest))
  }

  /** String literals separated by commas, up to and including the closing bracket. */
  function ParseItems(s: string): (r: Option<(seq<string>, string)>)
    ensures r.Some? ==> |r.value.1| < |s|
    decreases |s|, 1
  {
    if |s| == 0 || s[0] != '"' then None
    else
      match ParseStringBody(s[1..])
      case None => None
      case Some((t, rest)) => ParseItemsAfter(t, rest)
  }

  /** Continue a list of string literals after the literal `t`. */
  function ParseItemsAfter(t: string, rest: string): (r: Option<(seq<string>, string)>)
    ensures r.Some? ==> |r.value.1| < |rest|
    decreases |rest|, 0
  {
    if |rest| > 0 && rest[0] == ']' then Some(([t], rest[1..]))
    else if |rest| > 0 && rest[0] == ',' then
      match ParseItems(rest[1..])
      case None => None
      case Some((ts, rest2)) => Some(([t] + ts, rest2))
    else None
  }

  /** Object members separated by commas, up to and including the closing brace. */
  function ParseMembers(s: string): (r: Option<(seq<(string, Value)>, string)>)
    ensures r.Some? ==> |r.value.1| < |s|
    decreases |s|, 1
  {
    if |s| == 0 || s[0] != '"' then None
    else
      match ParseStringBody(s[1..])
      case None => None
      case Some((k, rest)) =>
        if |rest| == 0 || rest[0] != ':' then None
        else
          match ParseValue(rest[1..])
          case None => None
          case Some((v, rest2)) => ParseMembersAfter(k, v, rest2)
  }

  /** Continue a list of members after the member `k: v`. */
  function ParseMembersAfter(k: string, v: Value, rest: string): (r: Option<(seq<(string, Value)>, string)>)
    ensures r.Some? ==> |r.value.1| < |rest|
    decreases |rest|, 0
  {
    if |rest| > 0 && rest[0] == '}' then Some(([(k, v)], rest[1..]))
    else if |rest| > 0 && rest[0] == ',' then
      match ParseMembers(rest[1..])
      case None => None
      case Some((fs, rest2)) => Some(([(k, v)] + fs, rest2))
    else None
  }

  // ---------------------------------------------------------------------------
  // Round trip
  // ---------------------------------------------------------------------------

  /** What may follow a value inside a larger JSON text. */
  predicate Delimited(rest: string) {
    rest == [] || rest[0] == ',' || rest[0] == ']' || rest[0] == '}'
  }

  /** Reading one escaped character gives the character back, the text after it untouched. */
  lemma EscapeCharRoundTrip(c: char, rest: string)
    ensures ParseStringBody(EscapeChar(c) + rest) == Prepend(c, ParseStringBody(rest))
  {
    if c < ' ' && c != '\U{08}' && c != '\t' && c != '\n' && c != '\U{0C}' && c != '\r' {
      HexEscapeRoundTrip(c, rest);
    } else if c == '"' || c == '\\' || c == '\U{08}' || c == '\t' || c == '\n' || c == '\U{0C}' || c == '\r' {
      ShortEscapeRoundTrip(c, rest);
    } else {
      var s := EscapeChar(c) + rest;
      assert s == [c] + rest;
      assert s[1..] == rest;
    }
  }

  /** The `\u00xx` form of a control character. */
  lemma HexEscapeRoundTrip(c: char, rest: string)
    requires c < ' ' && c != '\U{08}' && c != '\t' && c != '\n' && c != '\U{0C}' && c != '\r'
    ensures ParseStringBody(EscapeChar(c) + rest) == Prepend(c, ParseStringBody(rest))
  {
    var h, l := c as int / 16, c as int % 16;
    var s := "\\u00" + [HexDigit(h), HexDigit(l)] + rest;
    assert EscapeChar(c) + rest == s;
    assert s[0] == '\\' && s[1] == 'u' && s[2] == '0' && s[3] == '0';
    assert HexValue(s[4]) == Some(h) && HexValue(s[5]) == Some(l);
    assert ((16 * h + l) as char) == c;
    assert Unescape(s) == Some((c, 6));
    assert s[6..] == rest;
  }

  /** The two-character forms: the quote, the backslash and the five short control escapes. */
  lemma ShortEscapeRoundTrip(c: char, rest: string)
    requires c == '"' || c == '\\' || c == '\U{08}' || c == '\t' || c == '\n' || c == '\U{0C}' || c == '\r'
    ensures ParseStringBody(EscapeChar(c) + rest) == Prepend(c, ParseStringBody(rest))
  {
    var e := EscapeChar(c);
    var s := e + rest;
    assert |e| == 2 && e[0] == '\\';
    assert s[0] == e[0] && s[1] == e[1];
    assert Unescape(s) == Some((c, 2));
    assert s[2..] == rest;
  }

  lemma {:induction false} EscapeRoundTrip(t: string, rest: string)
    ensures ParseStringBody(EscapeThen(t, "\"" + rest)) == Some((t, rest))
    decreases |t|
  {
    if |t| == 0 {
      assert ("\"" + rest)[1..] == rest;
    } else {
      var tail := EscapeThen(t[1..], "\"" + rest);
      EscapeCharRoundTrip(t[0], tail);
      EscapeRoundTrip(t[1..], rest);
      assert [t[0]] + t[1..] == t;
    }
  }

  lemma QuoteRoundTrip(t: string, rest: string)
    ensures QuoteThen(t, rest)[0] == '"'
    ensures ParseStringBody(QuoteThen(t, rest)[1..]) == Some((t, rest))
  {
    assert QuoteThen(t, rest)[1..] == EscapeThen(t, "\"" + rest);
    EscapeRoundTrip(t, rest);
  }

  lemma {:induction false} DigitRunOf(d: string, rest: string)
    requires AllDigits(d)
    requires rest == [] || !IsDigit(rest[0])
    ensures DigitRun(d + rest) == |d|
    decreases |d|
  {
    if |d| > 0 {
      assert (d + rest)[1..] == d[1..] + rest;
      DigitRunOf(d[1..], rest);
    }
  }

  lemma NumberRoundTrip(n: int, rest: string)
    requires rest == [] || !IsDigit(rest[0])
    ensures ParseNumber(IntToString(n) + rest) == Some((n, rest))
  {
    if n < 0 {
      var d := NatToString(-n);
      assert IntToString(n) + rest == "-" + (d + rest);
      DigitsThen(d, rest);
      MinusThen(d + rest, -n, rest);
    } else {
      NaturalThen(NatToString(n), rest);
    }
  }

  /** Digits followed by a non-digit read as their value. */
  lemma NaturalThen(d: string, rest: string)
    requires |d| > 0 && AllDigits(d)
    requires rest == [] || !IsDigit(rest[0])
    ensures ParseNumber(d + rest) == Some((DigitsValue(d) as int, rest))
  {
    DigitsThen(d, rest);
    assert (d + rest)[0] == d[0];
  }

  /** A minus sign before digits negates what they read as. */
  lemma MinusThen(t: string, n: int, rest: string)
    requires ParseDigits(t) == Some((n, rest))
    ensures ParseNumber("-" + t) == Some((-n, rest))
  {
    assert ("-" + t)[1..] == t;
  }

  lemma DigitsThen(d: string, rest: string)
    requires |d| > 0 && AllDigits(d)
    requires rest == [] || !IsDigit(rest[0])
    ensures ParseDigits(d + rest) == Some((DigitsValue(d) as int, rest))
  {
    var t := d + rest;
    DigitRunOf(d, rest);
    assert t[..|d|] == d && t[|d|..] == rest;
  }

  lemma {:induction false} ValueRoundTrip(v: Value, rest: string)
    requires Delimited(rest)
    ensures ParseValue(Write(v, rest)) == Some((v, rest))
    decreases v, 2
  {
    match v
    case Bool(b) => LiteralRoundTrip(b, rest);
    case Num(n) => NumRoundTrip(n, rest);
    case Str(t) => StrRoundTrip(t, rest);
    case StrArray(items) => ArrayRoundTrip(items, rest);
    case Dict(fields) => ObjectRoundTrip(fields, v, rest);
  }

  lemma LiteralRoundTrip(b: bool, rest: string)
    ensures ParseValue(Write(Bool(b), rest)) == Some((Bool(b), rest))
  {
    var s := Write(Bool(b), rest);
    if b { assert s[..4] == "true" && s[4..] == rest; } else { assert s[..5] == "false" && s[5..] == rest; }
  }

  lemma NumRoundTrip(n: int, rest: string)
    requires Delimited(rest)
    ensures ParseValue(Write(Num(n), rest)) == Some((Num(n), rest))
  {
    var s := Write(Num(n), rest);
    assert s[0] == IntToString(n)[0];
    assert s[0] == '-' || IsDigit(s[0]);
    NumberRoundTrip(n, rest);
  }

  lemma StrRoundTrip(t: string, rest: string)
    ensures ParseValue(Write(Str(t), rest)) == Some((Str(t), rest))
  {
    QuoteRoundTrip(t, rest);
  }

  lemma ArrayRoundTrip(items: seq<string>, rest: string)
    ensures var s := Write(StrArray(items), rest);
      |s| > 0 && s[0] == '[' && ParseArray(s) == Some((StrArray(items), rest))
  {
    var s := Write(StrArray(items), rest);
    if |items| == 0 {
      assert s[2..] == rest;
    } else {
      assert s[1..] == WriteItems(items, "]" + rest);
      QuoteRoundTrip(items[0], if |items| == 1 then "]" + rest else "," + WriteItems(items[1..], "]" + rest));
      ItemsRoundTrip(items, rest);
    }
  }

  lemma ObjectRoundTrip(fields: seq<(string, Value)>, v: Value, rest: string)
    requires v == Dict(fields)
    ensures var s := Write(v, rest);
      |s| > 0 && s[0] == '{' && ParseObject(s) == Some((v, rest))
    decreases v, 1
  {
    var s := Write(v, rest);
    if |fields| == 0 {
      assert s[2..] == rest;
    } else {
      var w := WriteMembers(fields, v, "}" + rest);
      assert s[1..] == w;
      var after := if |fields| == 1 then "}" + rest else "," + WriteMembers(fields[1..], v, "}" + rest);
      QuoteRoundTrip(fields[0].0, ":" + Write(fields[0].1, after));
      MembersRoundTrip(fields, v, rest);
    }
  }

  lemma {:induction false} ItemsRoundTrip(items: seq<string>, rest: string)
    requires |items| > 0
    ensures ParseItems(WriteItems(items, "]" + rest)) == Some((items, rest))
    decreases |items|
  {
    var after := if |items| == 1 then "]" + rest else "," + WriteItems(items[1..], "]" + rest);
    QuoteRoundTrip(items[0], after);
    if |items| == 1 {
      assert after[1..] == rest;
      assert [items[0]] == items;
    } else {
      assert after[1..] == WriteItems(items[1..], "]" + rest);
      ItemsRoundTrip(items[1..], rest);
      assert [items[0]] + items[1..] == items;
    }
  }

  lemma {:induction false} MembersRoundTrip(fs: seq<(string, Value)>, parent: Value, rest: string)
    requires |fs| > 0
    requires forall i :: 0 <= i < |fs| ==> fs[i].1 < parent
    ensures ParseMembers(WriteMembers(fs, parent, "}" + rest)) == Some((fs, rest))
    decreases parent, 0, |fs|
  {
    var k, v := fs[0].0, fs[0].1;
    var after := if |fs| == 1 then "}" + rest else "," + WriteMembers(fs[1..], parent, "}" + rest);
    MemberRoundTrip(k, v, after, parent);
    assert WriteMembers(fs, parent, "}" + rest) == QuoteThen(k, ":" + Write(v, after));
    if |fs| == 1 {
      LastMember(k, v, rest);
      assert [(k, v)] == fs;
    } else {
      var tail := WriteMembers(fs[1..], parent, "}" + rest);
      MembersRoundTrip(fs[1..], parent, rest);
      NextMember(k, v, tail, fs[1..], rest);
      assert [(k, v)] + fs[1..] == fs;
    }
  }

  /** A closing brace ends the member list. */
  lemma LastMember(k: string, v: Value, rest: string)
    ensures ParseMembersAfter(k, v, "}" + rest) == Some(([(k, v)], rest))
  {
    assert ("}" + rest)[1..] == rest;
  }

  /** A comma continues the member list with the members read after it. */
  lemma NextMember(k: string, v: Value, tail: string, fs: seq<(string, Value)>, rest: string)
    requires ParseMembers(tail) == Some((fs, rest))
    ensures ParseMembersAfter(k, v, "," + tail) == Some(([(k, v)] + fs, rest))
  {
    assert ("," + tail)[1..] == tail;
  }

  /** One member reads back as its key and value, and parsing continues after the value. */
  lemma MemberRoundTrip(k: string, v: Value, after: string, parent: Value)
    requires Delimited(after) && v < parent
    ensures ParseMembers(QuoteThen(k, ":" + Write(v, after))) == ParseMembersAfter(k, v, after)
    decreases parent, 0, 0
  {
    ValueRoundTrip(v, after);
    var more := ":" + Write(v, after);
    QuoteRoundTrip(k, more);
    assert more[1..] == Write(v, after);
  }

  /** Equal JSON texts come from equal values. */
  lemma StringifyInjective(a: Value, b: Value)
    ensures Stringify(a) == Stringify(b) ==> a == b
  {
    ValueRoundTrip(a, "");
    ValueRoundTrip(b, "");
  }
}
