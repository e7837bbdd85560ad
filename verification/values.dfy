/** Preference values on their way to and from the `defaults` command line
    (src/managers/macos.ts) and the loose comparison the diff engine applies to them
    (src/diff.ts). */
module Values {
  import opened JsString
  import opened Seqs
  import opened Types
  import opened Optional
  import Json

  // ---------------------------------------------------------------------------
  // JavaScript conversions
  // ---------------------------------------------------------------------------

  /** JavaScript truthiness: `false`, `0` and `''` are falsy, arrays and objects are not. */
  predicate Truthy(v: Value) {
    match v
    case Bool(b) => b
    case Num(n) => n != 0
    case Str(s) => s != ""
    case StrArray(_) => true
    case Dict(_) => true
  }

  /** `String(v)`, as a template literal or `toString` produces it. */
  function ToJsString(v: Value): string {
    match v
    case Bool(b) => if b then "true" else "false"
    case Num(n) => IntToString(n)
    case Str(s) => s
    case StrArray(items) => Join(items, ",")
    case Dict(_) => "[object Object]"
  }

  // ---------------------------------------------------------------------------
  // Comparison
  // ---------------------------------------------------------------------------

  /** The loose equality the diff engine uses: strict equality within booleans, numbers and
      strings; a number and a string by the number's `toString`; everything else by equal
      `JSON.stringify` texts, which for these values is plain equality. */
  function ValuesEqual(a: Value, b: Value): (r: bool)
    ensures r <==> || a == b
                   || (a.Num? && b.Str? && b.str == IntToString(a.num))
                   || (a.Str? && b.Num? && a.str == IntToString(b.num))
  {
    Json.StringifyInjective(a, b);
    match (a, b)
    case (Bool(x), Bool(y)) => x == y
    case (Num(x), Num(y)) => x == y
    case (Str(x), Str(y)) => x == y
    case (Num(x), Str(y)) => IntToString(x) == y
    case (Str(x), Num(y)) => x == IntToString(y)
    case _ => Json.Stringify(a) == Json.Stringify(b)
  }

  // ---------------------------------------------------------------------------
  // Writing
  // ---------------------------------------------------------------------------

  /** The `defaults write` type flag inferred from a value; every number here is an integer. */
  function InferType(v: Value): ValueType {
    match v
    case Bool(_) => BoolType
    case Num(_) => IntType
    case Str(_) => StringType
    case StrArray(_) => ArrayType
    case Dict(_) => DictType
  }

  function DoubleQuoted(s: string): string {
    "\"" + s + "\""
  }

  /** The value argument of `defaults write` for type flag `t`; the flag decides the form even
      when it does not match the value. */
  function FormatValue(v: Value, t: ValueType): (r: string)
    ensures t == BoolType ==> r == (if Truthy(v) then "1" else "0")
    ensures t == IntType || t == FloatType ==> r == ToJsString(v)
    ensures t == StringType ==> r == DoubleQuoted(ToJsString(v))
    ensures t == ArrayType && v.StrArray? ==>
      r == "'(" + Join(MapSeq(v.items, DoubleQuoted), ", ") + ")'"
    ensures t == ArrayType && !v.StrArray? ==> r == "'(" + ToJsString(v) + ")'"
    ensures t == DictType ==> r == "'" + Json.Stringify(v) + "'"
  {
    match t
    case BoolType => if Truthy(v) then "1" else "0"
    case IntType => ToJsString(v)
    case FloatType => ToJsString(v)
    case StringType => DoubleQuoted(ToJsString(v))
    case ArrayType =>
      if v.StrArray? then "'(" + Join(MapSeq(v.items, DoubleQuoted), ", ") + ")'"
      else "'(" + ToJsString(v) + ")'"
    case DictType => "'" + Json.Stringify(v) + "'"
  }

  /** Without a type flag a value is written in its own form: a boolean as `1`/`0`, an
      integer as its decimal text, a string double-quoted, a string array as a quoted,
      comma-separated list, an object as its JSON text; `float` is never inferred. */
  lemma FormatInferred(v: Value)
    ensures InferType(v) != FloatType
    ensures v.Bool? ==> FormatValue(v, InferType(v)) == (if v.bval then "1" else "0")
    ensures v.Num? ==> FormatValue(v, InferType(v)) == IntToString(v.num)
    ensures v.Str? ==> FormatValue(v, InferType(v)) == "\"" + v.str + "\""
    ensures v.StrArray? ==> FormatValue(v, InferType(v)) == "'(" + Join(MapSeq(v.items, DoubleQuoted), ", ") + ")'"
    ensures v.Dict? ==> FormatValue(v, InferType(v)) == "'" + Json.Stringify(v) + "'"
  {
  }

  // ---------------------------------------------------------------------------
  // Reading a written argument back
  // ---------------------------------------------------------------------------

  /** `s` without the `open` it starts with and the `close` it ends with. */
  function Between(s: string, open: string, close: string): Option<string> {
    if |open| + |close| <= |s| && StartsWith(s, open) && EndsWith(s, close) then Some(s[|open|..|s| - |close|])
    else None
  }

  /** A list `"a", "b", ...` of double-quoted runs free of `"`, separated by `, `. */
  function ReadQuotedItems(s: string): Option<seq<string>>
    decreases |s|
  {
    if |s| < 2 || s[0] != '"' then None
    else
      var k := IndexOf(s[1..], "\"");
      if k < 0 then None
      else
        var item, rest := s[1..1 + k], s[k + 2..];
        if rest == "" then Some([item])
        else if StartsWith(rest, ", ") then
          match ReadQuotedItems(rest[2..])
          case None => None
          case Some(more) => Some([item] + more)
        else None
  }

  function ReadQuotedList(s: string): Option<seq<string>> {
    if s == "" then Some([]) else ReadQuotedItems(s)
  }

  /** The value a `defaults write` argument written for type flag `t` stands for: the inverse
      of the writer on the forms it produces. */
  function ReadFormatted(text: string, t: ValueType): Option<Value> {
    match t
    case BoolType => if text == "1" then Some(Bool(true)) else if text == "0" then Some(Bool(false)) else None
    case IntType => if IsCanonicalInt(text) then Some(Num(ParseCanonicalInt(text))) else None
    case FloatType => if IsCanonicalInt(text) then Some(Num(ParseCanonicalInt(text))) else None
    case StringType =>
      (match Between(text, "\"", "\"")
       case None => None
       case Some(s) => Some(Str(s)))
    case ArrayType =>
      (match Between(text, "'(", ")'")
       case None => None
       case Some(inner) =>
         (match ReadQuotedList(inner)
          case None => None
          case Some(items) => Some(StrArray(items))))
    case DictType =>
      (match Between(text, "'", "'")
       case None => None
       case Some(inner) =>
         (match Json.ParseValue(inner)
          case None => None
          case Some((v, rest)) => if rest == "" && v.Dict? then Some(v) else None))
  }

  /** The writer quotes array items without escaping, so only items free of `"` can be told
      apart again. */
  predicate Quotable(v: Value) {
    v.StrArray? ==> forall i :: 0 <= i < |v.items| ==> '"' !in v.items[i]
  }

  /** The argument written with the inferred type flag determines the value: reading it back
      for that flag gives the value itself, for objects through their JSON text. */
  lemma FormatRoundTrip(v: Value)
    requires Quotable(v)
    ensures ReadFormatted(FormatValue(v, InferType(v)), InferType(v)) == Some(v)
  {
    match v
    case Bool(b) =>
    case Num(n) => ReadIntArgument(n);
    case Str(t) => BetweenOf("\"", t, "\"");
    case StrArray(items) => ReadArrayArgument(items);
    case Dict(_) => ReadDictArgument(v);
  }

  lemma ReadIntArgument(n: int)
    ensures ReadFormatted(IntToString(n), IntType) == Some(Num(n))
  {
    CanonicalIffPrinted(IntToString(n));
  }

  lemma ReadArrayArgument(items: seq<string>)
    requires forall i :: 0 <= i < |items| ==> '"' !in items[i]
    ensures ReadFormatted("'(" + Join(MapSeq(items, DoubleQuoted), ", ") + ")'", ArrayType) == Some(StrArray(items))
  {
    var inner := Join(MapSeq(items, DoubleQuoted), ", ");
    BetweenOf("'(", inner, ")'");
    if |items| > 0 {
      QuotedItemsRoundTrip(items);
    }
  }

  lemma ReadDictArgument(v: Value)
    requires v.Dict?
    ensures ReadFormatted("'" + Json.Stringify(v) + "'", DictType) == Some(v)
  {
    BetweenOf("'", Json.Stringify(v), "'");
    Json.ValueRoundTrip(v, "");
  }

  /** Two values with the same inferred flag and the same written argument are equal. */
  lemma FormatInjective(a: Value, b: Value)
    requires Quotable(a) && Quotable(b) && InferType(a) == InferType(b)
    ensures FormatValue(a, InferType(a)) == FormatValue(b, InferType(b)) ==> a == b
  {
    FormatRoundTrip(a);
    FormatRoundTrip(b);
  }

  lemma BetweenOf(open: string, s: string, close: string)
    ensures Between(open + s + close, open, close) == Some(s)
  {
    var t := open + s + close;
    assert t[..|open|] == open && t[|t| - |close|..] == close;
    assert t[|open|..|t| - |close|] == s;
  }

  /** The first `"` of a text whose first part has none ends that part. */
  lemma FirstQuote(a: string, b: string)
    requires '"' !in a
    ensures IndexOf(a + "\"" + b, "\"") == |a|
  {
    var s := a + "\"" + b;
    assert s[|a|..|a| + 1] == "\"";
    forall j | 0 <= j < |a| ensures !OccursAt(s, "\"", j) {
      assert s[j..j + 1] == [a[j]];
      assert a[j] in a;
    }
    var r := IndexOf(s, "\"");
    assert OccursAt(s, "\"", |a|);
    assert r != -1 && r <= |a|;
    assert OccursAt(s, "\"", r);
  }

  /** A non-empty list of `"`-free items, quoted and joined, reads back as the items. */
  lemma {:induction false} QuotedItemsRoundTrip(items: seq<string>)
    requires |items| > 0 && forall i :: 0 <= i < |items| ==> '"' !in items[i]
    ensures ReadQuotedItems(Join(MapSeq(items, DoubleQuoted), ", ")) == Some(items)
    decreases |items|
  {
    var a := items[0];
    assert '"' !in a;
    if |items| == 1 {
      assert MapSeq(items, DoubleQuoted) == [DoubleQuoted(a)];
      ReadLastItem(a);
      assert items == [a];
    } else {
      var tail := items[1..];
      var j := Join(MapSeq(tail, DoubleQuoted), ", ");
      JoinQuotedCons(items);
      QuotedItemsRoundTrip(tail);
      ReadItemThen(a, j, tail);
      assert [a] + tail == items;
    }
  }

  lemma JoinQuotedCons(items: seq<string>)
    requires |items| > 1
    ensures Join(MapSeq(items, DoubleQuoted), ", ") ==
      DoubleQuoted(items[0]) + ", " + Join(MapSeq(items[1..], DoubleQuoted), ", ")
  {
    assert MapSeq(items, DoubleQuoted)[1..] == MapSeq(items[1..], DoubleQuoted);
  }

  /** The last item of a list is a quoted run with nothing after it. */
  lemma ReadLastItem(a: string)
    requires '"' !in a
    ensures ReadQuotedItems(DoubleQuoted(a)) == Some([a])
  {
    var s := DoubleQuoted(a);
    assert s[1..] == a + "\"" + "";
    FirstQuote(a, "");
    assert s[0] == '"' && IndexOf(s[1..], "\"") == |a|;
    assert s[1..1 + |a|] == a && s[|a| + 2..] == "";
  }

  /** An item followed by `, ` and a readable list reads as that item before the list. */
  lemma ReadItemThen(a: string, j: string, more: seq<string>)
    requires '"' !in a && ReadQuotedItems(j) == Some(more)
    ensures ReadQuotedItems(DoubleQuoted(a) + ", " + j) == Some([a] + more)
  {
    var s := DoubleQuoted(a) + ", " + j;
    assert s[1..] == a + "\"" + (", " + j);
    FirstQuote(a, ", " + j);
    assert s[1..1 + |a|] == a && s[|a| + 2..] == ", " + j;
    ItemThenAt(s, a, j, more);
  }

  /** A text that opens with `"`, an item, `"` and `, `, followed by a readable list, reads as
      the item followed by that list. */
  lemma ItemThenAt(s: string, a: string, j: string, more: seq<string>)
    requires |s| >= |a| + 2 && s[0] == '"' && IndexOf(s[1..], "\"") == |a|
    requires s[1..1 + |a|] == a && s[|a| + 2..] == ", " + j && ReadQuotedItems(j) == Some(more)
    ensures ReadQuotedItems(s) == Some([a] + more)
  {
    var rest := s[|a| + 2..];
    assert StartsWith(rest, ", ") && rest[2..] == j;
  }

  // ---------------------------------------------------------------------------
  // Reading
  // ---------------------------------------------------------------------------

  /** `Number.MAX_SAFE_INTEGER`: up to here every integer survives `Number(s).toString()`. */
  const MaxSafeInteger: int := 0x1F_FFFF_FFFF_FFFF

  predicate IsTrueText(t: string) {
    t == "1" || LowerAscii(t) == "true"
  }

  predicate IsFalseText(t: string) {
    t == "0" || LowerAscii(t) == "false"
  }

  /** No text spells both booleans. */
  lemma TrueNotFalse(t: string)
    ensures !(IsTrueText(t) && IsFalseText(t))
  {
  }

  /** Text that `Number(t).toString()` gives back unchanged, as far as integers go. */
  predicate IsNumberText(t: string) {
    IsCanonicalInt(t) && -MaxSafeInteger <= ParseCanonicalInt(t) <= MaxSafeInteger
  }

  /** How one line of `defaults read` output becomes a value: trimmed, then a boolean for
      `1`/`0`/`true`/`false` (any case), then an integer when the text is exactly the integer's
      own decimal form, else the trimmed text itself. */
  function ParseDefaultsOutput(output: string): (r: Value)
    ensures var t := Trim(output);
      && (r == Bool(true) <==> IsTrueText(t))
      && (r == Bool(false) <==> IsFalseText(t))
      && (r.Num? <==> !IsTrueText(t) && !IsFalseText(t) && IsNumberText(t))
      && (r.Num? ==> IntToString(r.num) == t)
      && (r.Str? ==> r.str == t)
      && !r.StrArray? && !r.Dict?
  {
    var t := Trim(output);
    TrueNotFalse(t);
    if IsTrueText(t) then Bool(true)
    else if IsFalseText(t) then Bool(false)
    else if IsNumberText(t) then
      CanonicalIntRoundTrip(t);
      Num(ParseCanonicalInt(t))
    else Str(t)
  }

  /** The decimal text of an integer reads back as that integer, except that `1` and `0` read
      back as booleans and integers beyond the safe range stay text. */
  lemma ReadBackInteger(n: int)
    ensures ParseDefaultsOutput(IntToString(n)) ==
      if n == 1 then Bool(true)
      else if n == 0 then Bool(false)
      else if -MaxSafeInteger <= n <= MaxSafeInteger then Num(n)
      else Str(IntToString(n))
  {
    var t := IntToString(n);
    IntTextIsTrimmed(n);
    IntTextIsNoWord(n);
    var r := ParseDefaultsOutput(t);
    if r.Num? {
      IntToStringInjective(r.num, n);
    }
  }

  /** Integer text carries no whitespace, so trimming keeps it. */
  lemma IntTextIsTrimmed(n: int)
    ensures Trim(IntToString(n)) == IntToString(n)
  {
    var t := IntToString(n);
    assert forall i :: 0 <= i < |t| ==> t[i] == '-' || IsDigit(t[i]) by {
      if !IsCanonicalNat(t) {
        assert forall i :: 1 <= i < |t| ==> t[i] == t[1..][i - 1];
      }
    }
    NoWhitespaceTrim(t);
  }

  /** Integer text spells `true` or `false` in no case, and is `1` or `0` only for those
      integers. */
  lemma IntTextIsNoWord(n: int)
    ensures LowerAscii(IntToString(n)) != "true" && LowerAscii(IntToString(n)) != "false"
    ensures IntToString(n) == "1" <==> n == 1
    ensures IntToString(n) == "0" <==> n == 0
  {
    NumberTextIsNoWord(IntToString(n));
    IntToStringInjective(n, 1);
    IntToStringInjective(n, 0);
    assert IntToString(1) == "1" && IntToString(0) == "0";
  }

  lemma NumberTextIsNoWord(t: string)
    requires IsCanonicalInt(t)
    ensures LowerAscii(t) != "true" && LowerAscii(t) != "false"
  {
    assert LowerAscii(t)[0] == LowerChar(t[0]);
    assert t[0] == '-' || IsDigit(t[0]);
  }

  predicate NoWhitespace(s: string) {
    forall i :: 0 <= i < |s| ==> !IsWhitespace(s[i])
  }

  lemma NoWhitespaceTrim(s: string)
    requires NoWhitespace(s)
    ensures Trim(s) == s
  {
    TrimNoOp(s);
  }

  // ---------------------------------------------------------------------------
  // Writing then reading back
  // ---------------------------------------------------------------------------

  predicate IsScalar(v: Value) {
    v.Bool? || v.Num? || v.Str?
  }

  /** What `defaults read` prints for a scalar written with its inferred type flag: the
      `-bool` value as `1`/`0`, the `-int` value in decimal, the `-string` value verbatim.
      This describes the macOS tool, not the program. The command runs through `/bin/sh`, so
      "verbatim" holds for strings free of `$`, backquote, `\` and `"`, which the shell would
      rewrite. */
  function StoredText(v: Value): string
    requires IsScalar(v)
  {
    match v
    case Bool(b) => FormatValue(v, BoolType)
    case Num(n) => FormatValue(v, IntType)
    case Str(s) => s
  }

  /** The scalars a later run observes as equal to what was written. */
  predicate Settles(v: Value)
    requires IsScalar(v)
  {
    match v
    case Bool(_) => true
    case Num(n) => n != 0 && n != 1
    case Str(s) => Trim(s) == s && !IsTrueText(s) && !IsFalseText(s)
  }

  /** Writing a scalar and reading it back compares equal exactly for the settling scalars:
      `1` and `0` come back as booleans, and strings that are padded or spell a boolean come
      back changed, so such settings show as `update` on every run. */
  lemma ReadBackScalar(v: Value)
    requires IsScalar(v)
    ensures ValuesEqual(ParseDefaultsOutput(StoredText(v)), v) <==> Settles(v)
  {
    match v
    case Bool(b) =>
      assert StoredText(v) == if b then "1" else "0";
      ReadBackBool(b);
    case Num(n) =>
      assert StoredText(v) == IntToString(n);
      ReadBackNumber(n);
    case Str(s) =>
      ReadBackString(s);
  }

  lemma ReadBackBool(b: bool)
    ensures ParseDefaultsOutput(if b then "1" else "0") == Bool(b)
  {
    var t := if b then "1" else "0";
    NoWhitespaceTrim(t);
  }

  lemma ReadBackNumber(n: int)
    ensures ValuesEqual(ParseDefaultsOutput(IntToString(n)), Num(n)) <==> n != 0 && n != 1
  {
    ReadBackInteger(n);
  }

  lemma ReadBackString(s: string)
    ensures ValuesEqual(ParseDefaultsOutput(s), Str(s)) <==> Settles(Str(s))
  {
    var t := Trim(s);
    var r := ParseDefaultsOutput(s);
    if IsTrueText(t) || IsFalseText(t) {
      assert r.Bool?;
      assert !ValuesEqual(r, Str(s));
      if Trim(s) == s {
        assert IsTrueText(s) || IsFalseText(s);
      }
    } else if IsNumberText(t) {
      assert ValuesEqual(r, Str(s)) <==> s == t;
      if t == s {
        assert !IsTrueText(s) && !IsFalseText(s);
      }
    } else {
      assert r == Str(t);
      assert ValuesEqual(r, Str(s)) <==> s == t;
    }
  }
}
